/** What becomes of each transaction, each posted task, each wait and each message, whatever step comes. */
module TransactionLifeCycle {
  import opened Bytes
  import opened Common
  import opened TransactionKeys
  import opened Transactions
  import opened TransactionTheorems

  // -------------------------------------------------------------------------------------
  // Life cycles
  // -------------------------------------------------------------------------------------

  /** The step is the arrival of a message for transaction id. */
  ghost predicate RoutedTo(s: State, s': State, step: Step, id: nat) {
    step.Arrive? && s'.routes == s.routes + [ToTransaction(step.msg, id)]
  }

  /** What was stored or posted for a message has the message's own kind and contents. */
  predicate Answers(response: Response, msg: Incoming) {
    match msg
    case ReplyIn(kind, _, body) => response == Reply(kind, body)
    case ErrorIn(_, body) => response == Error(body)
  }

  /** A step by which wait w looks for the message of transaction id. */
  predicate Looks(s: State, step: Step, w: nat, id: nat) {
    || (step == Receive(w, id, true))
    || (step == StartWait(w) && w in s.waits && s.waits[w].txn == id)
    || (step == RunWait(w) && w in s.waits && s.waits[w].txn == id)
  }

  /** A step that starts a wait on the timer of transaction id. */
  predicate Rearms(s: State, step: Step, id: nat) {
    || (step.Receive? && step.onStrand && step.id == id)
    || (step.StartWait? && step.wait in s.waits && s.waits[step.wait].txn == id)
  }

  /**
   * An empty slot is filled by an arrival on the strand or by a posted task, each with its own
   * message, and by nothing else; the first wait to look takes the contents, and they are all
   * that changes from then on.
   */
  ghost predicate SlotStep(s: State, step: Step, s': State, id: nat)
    requires id in s.txns && id in s'.txns
  {
    var slot, slot' := s.txns[id].slot, s'.txns[id].slot;
    match slot
    case Empty =>
      if RoutedTo(s, s', step, id) && step.onStrand then
        slot'.Stored? && Answers(slot'.response, step.msg) && slot'.taker.None?
      else if step.RunSet? && step.task in s.tasks && s.tasks[step.task].txn == id then
        slot' == Stored(s.tasks[step.task].response, None)
      else slot' == Empty
    case Stored(response, taker) =>
      && slot'.Stored? && slot'.response == response
      && (taker.Some? ==> slot'.taker == taker)
      && (forall w: nat :: taker.None? ==> (slot'.taker == Some(w) <==> Looks(s, step, w, id)))
  }

  /** The step is the arrival of a message whose key is mapped to transaction id; its entry goes with it. */
  ghost predicate LooksUp(s: State, step: Step, id: nat) {
    step.Arrive? && KeyFor(step.msg).Some? && KeyFor(step.msg).value in s.registry && s.registry[KeyFor(step.msg).value] == id
  }

  /** The last owner's release and the destructor are the only steps to end a transaction's life. */
  ghost predicate TransactionStep(s: State, step: Step, s': State, id: nat)
    requires id in s.txns && id in s'.txns
  {
    var txn, txn' := s.txns[id], s'.txns[id];
    && txn'.kind == txn.kind && txn'.xid == txn.xid
    && (txn'.held <==> txn.held && step != Drop(id))
    && (txn'.destroyed <==> txn.destroyed || step == Destroy(id))
    && (txn'.extracted <==> txn.extracted || LooksUp(s, step, id))
    && SlotStep(s, step, s', id)
    && txn'.sets == txn.sets + (if txn.slot.Empty? && txn'.slot.Stored? then 1 else 0)
  }

  /** The phase a wait starts in: bound to the message if there is one, and armed otherwise. */
  function Started(slot: Slot): Phase {
    if slot.Stored? then Bound(Delivered(slot.response, slot.taker.None?)) else Armed
  }

  /**
   * A requested wait starts when its functor runs. An armed one is queued as expired by its own
   * timer, and as aborted when its transaction is given a message or its timer is set anew. Queued
   * and bound ones complete when their handlers run.
   */
  ghost predicate WaitStep(s: State, step: Step, s': State, w: nat)
    requires w in s.waits && w in s'.waits && s.waits[w].txn in s.txns && s.waits[w].txn in s'.txns
  {
    var id, phase' := s.waits[w].txn, s'.waits[w].phase;
    && s'.waits[w].txn == id
    && match s.waits[w].phase
       case Requested => phase' == (if step == StartWait(w) then Started(s.txns[id].slot) else Requested)
       case Armed =>
         phase' == (if step == TimerExpires(id) then Queued(false)
                    else if s'.txns[id].slot.Stored? || Rearms(s, step, id) then Queued(true)
                    else Armed)
       case Queued(aborted) => phase' == (if step == RunWait(w) then Completed else Queued(aborted))
       case Bound(result) => phase' == (if step == RunBound(w) then Completed else Bound(result))
       case Completed => phase' == Completed
  }

  /** What the handler of the wait whose turn it is completes with. */
  function CompletedBy(s: State, step: Step): seq<(nat, Result)> {
    match step
    case RunWait(w) =>
      if w in s.waits && s.waits[w].phase.Queued? && s.waits[w].txn in s.txns then
        var slot := s.txns[s.waits[w].txn].slot;
        [(w, if slot.Stored? then Delivered(slot.response, slot.taker.None?) else NoMessage(s.waits[w].phase.aborted))]
      else []
    case RunBound(w) =>
      if w in s.waits && s.waits[w].phase.Bound? then [(w, s.waits[w].phase.result)] else []
    case _ => []
  }

  /** A destructor runs when the owner, all waits not yet handed a result, and all set tasks are gone, and only then. */
  lemma DestroyedIff(s: State, id: nat)
    ensures Enabled(s, Destroy(id)) <==>
            && id in s.txns && !s.txns[id].destroyed && !s.txns[id].held
            && (forall w :: w in s.waits && s.waits[w].txn == id ==> s.waits[w].phase.Bound? || s.waits[w].phase.Completed?)
            && (forall k :: k in s.tasks ==> s.tasks[k].txn != id)
  {
  }

  /** Transactions come from registering and keep what they are; nothing but their own steps changes them. */
  lemma TransactionLifeCycle(s: State, step: Step, id: nat)
    requires Inv(s) && Enabled(s, step)
    ensures var s' := Apply(s, step);
            && (id in s'.txns <==> id in s.txns || (step.Register? && step.id == id))
            && (id in s.txns ==> TransactionStep(s, step, s', id))
            && (id !in s.txns && id in s'.txns ==>
                  s'.txns[id] == Txn(step.kind, step.xid, true, false, false, Empty, 0))
  {
    if step.RunSet? {
      assert TaskOk(s.tasks[step.task], s.txns);
    }
    hide KeyOf, KeyFor, CancelTimer, ExpireTimer, HasReference, RegisterRequest, Destruct, HandleMessage, AsyncWait,
      SetMessage, RunWaitHandler, TransactionStep, Inv;
    match step
    case Arrive(msg, onStrand, task) => ArrivalLife(s, msg, onStrand, task, id);
    case RunSet(task) => SettingLife(s, task, id);
    case Register(i, c, xid) => RegisteringLife(s, i, c, xid, id);
    case Destroy(i) => DestructionLife(s, i, id);
    case Receive(w, i, onStrand) => ReceiveLife(s, w, i, onStrand, id);
    case StartWait(w) => StartLife(s, w, id);
    case RunWait(w) => RunWaitLife(s, w, id);
    case _ => RestLife(s, step, id);
  }

  lemma RestLife(s: State, step: Step, id: nat)
    requires Enabled(s, step) && (step.Drop? || step.TimerExpires? || step.RunBound?)
    ensures var s' := Apply(s, step);
            s'.txns.Keys == s.txns.Keys && (id in s.txns ==> TransactionStep(s, step, s', id))
  {
    hide KeyOf, ExpireTimer;
  }

  lemma RegisteringLife(s: State, i: nat, c: RequestClass, xid: int, id: nat)
    requires i !in s.txns
    ensures var s' := RegisterRequest(s, i, c, xid);
            && (id in s'.txns <==> id in s.txns || i == id)
            && (id in s.txns ==> TransactionStep(s, Register(i, c, xid), s', id))
            && (id == i ==> s'.txns[id] == Txn(c, xid, true, false, false, Empty, 0))
  {
    hide KeyOf;
  }

  lemma DestructionLife(s: State, i: nat, id: nat)
    requires i in s.txns
    ensures var s' := Destruct(s, i);
            s'.txns.Keys == s.txns.Keys && (id in s.txns ==> TransactionStep(s, Destroy(i), s', id))
  {
    hide KeyOf;
  }

  lemma SettingLife(s: State, task: nat, id: nat)
    requires task in s.tasks && s.tasks[task].txn in s.txns && s.txns[s.tasks[task].txn].slot.Empty?
    ensures var s' := SetMessage(s.(tasks := s.tasks - {task}), s.tasks[task].txn, s.tasks[task].response);
            s'.txns.Keys == s.txns.Keys && (id in s.txns ==> TransactionStep(s, RunSet(task), s', id))
  {
    hide CancelTimer;
    var own := s.tasks[task].txn;
    var s' := SetMessage(s.(tasks := s.tasks - {task}), own, s.tasks[task].response);
    if id in s.txns && id != own {
      assert s'.txns[id] == s.txns[id];
    }
  }

  lemma ReceiveLife(s: State, w: nat, i: nat, onStrand: bool, id: nat)
    requires w !in s.waits && i in s.txns
    ensures var s' := if onStrand then AsyncWait(s, w, i) else s.(waits := s.waits[w := Wait(i, Requested)]);
            s'.txns.Keys == s.txns.Keys && (id in s.txns ==> TransactionStep(s, Receive(w, i, onStrand), s', id))
  {
    hide CancelTimer;
  }

  lemma StartLife(s: State, w: nat, id: nat)
    requires w in s.waits && s.waits[w].txn in s.txns
    ensures var s' := AsyncWait(s, w, s.waits[w].txn);
            s'.txns.Keys == s.txns.Keys && (id in s.txns ==> TransactionStep(s, StartWait(w), s', id))
  {
    hide CancelTimer;
  }

  lemma RunWaitLife(s: State, w: nat, id: nat)
    requires Enabled(s, RunWait(w))
    ensures var s' := RunWaitHandler(s, w, s.waits[w].phase.aborted);
            s'.txns.Keys == s.txns.Keys && (id in s.txns ==> TransactionStep(s, RunWait(w), s', id))
  {
    var s' := RunWaitHandler(s, w, s.waits[w].phase.aborted);
    hide Enabled, HasReference;
    if id in s.txns && id != s.waits[w].txn {
      assert s'.txns[id] == s.txns[id];
    }
  }

  /** An extraction marks the transaction it finds and changes nothing else about any. */
  lemma ExtractionLife(s: State, key: Option<int>, id: nat)
    ensures var s' := AfterExtraction(s, key);
            && s'.txns.Keys == s.txns.Keys && s'.routes == s.routes && s'.waits == s.waits && s'.tasks == s.tasks
            && var looked := key.Some? && key.value in s.registry && s.registry[key.value] == id;
               id in s.txns ==> s'.txns[id] == s.txns[id].(extracted := s.txns[id].extracted || looked)
  {
    hide KeyOf;
  }

  /** An arrival concerns the transaction found alone, and on the strand stores its answer at once. */
  lemma ArrivalEffect(s: State, msg: Incoming, onStrand: bool, task: nat, id: nat)
    requires forall i :: Extracted(s, KeyFor(msg)) == Some(i) ==> i in AfterExtraction(s, KeyFor(msg)).txns
    ensures var s1, s', found := AfterExtraction(s, KeyFor(msg)), HandleMessage(s, msg, onStrand, task), Extracted(s, KeyFor(msg));
            && s'.routes == s1.routes + [if found.Some? then ToTransaction(msg, found.value) else Forwarded(msg)]
            && s'.txns.Keys == s1.txns.Keys
            && (id in s1.txns ==>
                  if onStrand && found == Some(id) then
                    && s'.txns[id].slot.Stored? && Answers(s'.txns[id].slot.response, msg) && s'.txns[id].slot.taker.None?
                    && s'.txns[id] == s1.txns[id].(slot := s'.txns[id].slot, sets := s1.txns[id].sets + 1)
                  else s'.txns[id] == s1.txns[id])
  {
    hide KeyOf, KeyFor, AfterExtraction, Extracted, CancelTimer;
  }

  lemma ArrivalStep(s: State, step: Step, s': State, id: nat)
    requires step.Arrive? && id in s.txns && id in s'.txns
    requires s'.txns[id].extracted <==> s.txns[id].extracted || LooksUp(s, step, id)
    requires if RoutedTo(s, s', step, id) && step.onStrand then
               && s.txns[id].slot.Empty? && s'.txns[id].slot.Stored? && s'.txns[id].slot.taker.None?
               && Answers(s'.txns[id].slot.response, step.msg)
               && s'.txns[id] == s.txns[id].(slot := s'.txns[id].slot, sets := s.txns[id].sets + 1, extracted := s'.txns[id].extracted)
             else s'.txns[id] == s.txns[id].(extracted := s'.txns[id].extracted)
    ensures TransactionStep(s, step, s', id)
  {
    hide Answers, RoutedTo, LooksUp;
  }

  lemma ArrivalLife(s: State, msg: Incoming, onStrand: bool, task: nat, id: nat)
    requires Inv(s) && ValidIncoming(msg)
    ensures var s' := HandleMessage(s, msg, onStrand, task);
            && s'.txns.Keys == s.txns.Keys
            && (id in s.txns ==> TransactionStep(s, Arrive(msg, onStrand, task), s', id))
  {
    var key := KeyFor(msg);
    var s1, found := AfterExtraction(s, key), Extracted(s, key);
    ExtractedFits(s, msg);
    assert found.Some? ==> found.value in s.txns && s.txns[found.value].slot.Empty?;
    hide Inv, KeyOf, KeyFor, HasReference, Unanswered, Fits, HandleMessage, TransactionStep, Answers;
    ExtractionLife(s, key, id);
    hide AfterExtraction, Extracted;
    ArrivalEffect(s, msg, onStrand, task, id);
    var step, s' := Arrive(msg, onStrand, task), HandleMessage(s, msg, onStrand, task);
    assert s'.routes[|s.routes|] == if found.Some? then ToTransaction(msg, found.value) else Forwarded(msg);
    assert RoutedTo(s, s', step, id) <==> found == Some(id);
    if id in s.txns {
      assert s'.txns[id].extracted <==> s.txns[id].extracted || LooksUp(s, step, id);
      hide RoutedTo, LooksUp;
      ArrivalStep(s, step, s', id);
    }
  }

  /** What the lemmas about single steps need of a wait. */
  ghost predicate Known(s: State, w: nat) {
    w in s.waits ==>
      s.waits[w].txn in s.txns && (s.waits[w].phase.Armed? ==> s.txns[s.waits[w].txn].slot.Empty?)
  }

  /** No wait is new or gone, no receive completes, and w takes its step. */
  ghost predicate WaitsGoOn(s: State, step: Step, s': State, w: nat)
    requires Known(s, w) && s.txns.Keys <= s'.txns.Keys
  {
    s'.waits.Keys == s.waits.Keys && s'.completions == s.completions && (w in s.waits ==> WaitStep(s, step, s', w))
  }

  lemma RestWaits(s: State, step: Step, w: nat)
    requires Known(s, w) && Enabled(s, step) && (step.Drop? || step.TimerExpires? || step.RunBound?)
    ensures var s' := Apply(s, step);
            && s'.waits.Keys == s.waits.Keys && s'.txns.Keys == s.txns.Keys
            && (w in s.waits ==> WaitStep(s, step, s', w)) && s'.completions == s.completions + CompletedBy(s, step)
  {
    hide KeyOf, HasReference;
  }

  lemma RegisteringWaits(s: State, i: nat, c: RequestClass, xid: int, w: nat)
    requires Known(s, w) && i !in s.txns
    ensures WaitsGoOn(s, Register(i, c, xid), RegisterRequest(s, i, c, xid), w)
  {
    hide KeyOf;
  }

  lemma DestructionWaits(s: State, i: nat, w: nat)
    requires Known(s, w) && i in s.txns
    ensures WaitsGoOn(s, Destroy(i), Destruct(s, i), w)
  {
    hide KeyOf;
  }

  lemma SettingWaits(s: State, task: nat, w: nat)
    requires Known(s, w) && task in s.tasks && s.tasks[task].txn in s.txns
    ensures WaitsGoOn(s, RunSet(task), SetMessage(s.(tasks := s.tasks - {task}), s.tasks[task].txn, s.tasks[task].response), w)
  {
  }

  lemma StartingWaits(s: State, step: Step, v: nat, i: nat, w: nat)
    requires Known(s, w) && i in s.txns
    requires (step == Receive(v, i, true) && v !in s.waits) ||
             (step == StartWait(v) && v in s.waits && s.waits[v] == Wait(i, Requested))
    ensures var s' := AsyncWait(s, v, i);
            && s'.waits.Keys == s.waits.Keys + {v} && s'.completions == s.completions && s'.txns.Keys == s.txns.Keys
            && (w in s.waits ==> WaitStep(s, step, s', w))
            && s'.waits[v] == Wait(i, Started(s.txns[i].slot))
  {
  }

  lemma RunWaitWaits(s: State, v: nat, w: nat)
    requires Known(s, w) && Enabled(s, RunWait(v))
    ensures var s' := RunWaitHandler(s, v, s.waits[v].phase.aborted);
            && s'.waits.Keys == s.waits.Keys && s'.txns.Keys == s.txns.Keys
            && (w in s.waits ==> WaitStep(s, RunWait(v), s', w)) && s'.completions == s.completions + CompletedBy(s, RunWait(v))
  {
  }

  lemma ArrivalOnWaits(s: State, msg: Incoming, onStrand: bool, task: nat)
    requires forall i :: Extracted(s, KeyFor(msg)) == Some(i) ==> i in AfterExtraction(s, KeyFor(msg)).txns
    ensures var s', found := HandleMessage(s, msg, onStrand, task), Extracted(s, KeyFor(msg));
            && s'.completions == s.completions
            && s'.waits == (if onStrand && found.Some? then CancelTimer(s.waits, found.value) else s.waits)
            && (onStrand && found.Some? ==> found.value in s'.txns && s'.txns[found.value].slot.Stored?)
  {
    hide KeyOf, KeyFor, Extracted, CancelTimer;
  }

  /** An arrival aborts the armed waits of the transaction it stores a message in, if any, and no others. */
  lemma AbortedByArrival(s: State, step: Step, s': State, found: Option<nat>, w: nat)
    requires step.Arrive? && Known(s, w) && s'.txns.Keys == s.txns.Keys && s'.completions == s.completions
    requires s'.waits == if found.Some? then CancelTimer(s.waits, found.value) else s.waits
    requires found.Some? ==> found.value in s'.txns && s'.txns[found.value].slot.Stored?
    requires w in s.waits && found != Some(s.waits[w].txn) ==> s'.txns[s.waits[w].txn].slot == s.txns[s.waits[w].txn].slot
    ensures WaitsGoOn(s, step, s', w)
  {
  }

  lemma ArrivalWaits(s: State, msg: Incoming, onStrand: bool, task: nat, w: nat)
    requires Inv(s) && Known(s, w) && ValidIncoming(msg)
    ensures HandleMessage(s, msg, onStrand, task).txns.Keys == s.txns.Keys
    ensures WaitsGoOn(s, Arrive(msg, onStrand, task), HandleMessage(s, msg, onStrand, task), w)
  {
    var key := KeyFor(msg);
    ExtractedFits(s, msg);
    hide Inv, KeyOf, KeyFor, HasReference, Unanswered, Fits, HandleMessage, Answers, CancelTimer, WaitsGoOn, LooksUp;
    var id := if w in s.waits then s.waits[w].txn else 0;
    ExtractionLife(s, key, id);
    hide AfterExtraction, Extracted;
    ArrivalEffect(s, msg, onStrand, task, id);
    ArrivalOnWaits(s, msg, onStrand, task);
    AbortedByArrival(s, Arrive(msg, onStrand, task), HandleMessage(s, msg, onStrand, task),
                     if onStrand then Extracted(s, key) else None, w);
  }

  /** Waits come from receiving, belong to their transactions for good, and complete once, when it is their turn. */
  lemma WaitLifeCycle(s: State, step: Step, w: nat)
    requires Inv(s) && Enabled(s, step)
    ensures var s' := Apply(s, step);
            && (w in s'.waits <==> w in s.waits || (step.Receive? && step.wait == w))
            && (w in s.waits ==> s.waits[w].txn in s.txns && s.waits[w].txn in s'.txns && WaitStep(s, step, s', w))
            && (w !in s.waits && w in s'.waits ==>
                  s'.waits[w] == Wait(step.id, if step.onStrand then Started(s.txns[step.id].slot) else Requested))
            && s'.completions == s.completions + CompletedBy(s, step)
  {
    if w in s.waits {
      assert WaitOk(w, s.waits[w], s.txns);
    }
    hide KeyOf, KeyFor, HasReference, RegisterRequest, Destruct, HandleMessage, AsyncWait, SetMessage, RunWaitHandler,
      WaitStep, Inv;
    match step
    case Arrive(msg, onStrand, task) => ArrivalWaits(s, msg, onStrand, task, w);
    case RunSet(task) => SettingWaits(s, task, w);
    case Register(i, c, xid) => RegisteringWaits(s, i, c, xid, w);
    case Destroy(i) => DestructionWaits(s, i, w);
    case Receive(v, i, onStrand) => if onStrand { StartingWaits(s, step, v, i, w); }
    case StartWait(v) => StartingWaits(s, step, v, s.waits[v].txn, w);
    case RunWait(v) => RunWaitWaits(s, v, w);
    case _ => RestWaits(s, step, w);
  }

  /**
   * What any step makes of any entry of the registry: registering makes one, unless there is one,
   * which then stays; a destructor that finds no message takes the entry under its transaction's
   * key, and a message that is looked up the one under its own; nothing else changes any.
   */
  lemma EntryLifeCycle(s: State, step: Step, k: int)
    requires Enabled(s, step)
    ensures var s' := Apply(s, step);
            var made := step.Register? && KeyOf(step.kind, step.xid) == k;
            var taken := || (step.Destroy? && s.txns[step.id].Key() == k && s.txns[step.id].slot.Empty?)
                         || (step.Arrive? && KeyFor(step.msg) == Some(k));
            && (k in s'.registry <==> (k in s.registry && !taken) || made)
            && (k in s.registry && k in s'.registry ==> s'.registry[k] == s.registry[k])
            && (k !in s.registry && k in s'.registry ==> s'.registry[k] == step.id)
  {
    hide KeyOf, KeyFor, CancelTimer, ExpireTimer, HasReference, ResponseFor;
    match step
    case Arrive(msg, onStrand, task) =>
      match Extracted(s, KeyFor(msg)) {
        case Some(id) =>
        case None =>
      }
    case _ =>
  }

  /** The transaction an arrival was logged as going to. */
  ghost predicate LastRoute(s': State, msg: Incoming, id: nat) {
    |s'.routes| > 0 && s'.routes[|s'.routes| - 1] == ToTransaction(msg, id)
  }

  /** Every arrival is logged once, and no other step logs anything. */
  lemma RoutesOfStep(s: State, step: Step)
    requires Enabled(s, step)
    ensures var s' := Apply(s, step);
            if step.Arrive? then
              |s'.routes| == |s.routes| + 1 && s.routes <= s'.routes
              && s'.routes[|s.routes|].msg == step.msg
            else s'.routes == s.routes
  {
    hide KeyOf, KeyFor, HasReference, CancelTimer, ExpireTimer;
  }

  /** Tasks come from messages that arrive off the strand for a transaction, and last until they are run. */
  lemma TaskLifeCycle(s: State, step: Step, k: nat)
    requires Inv(s) && Enabled(s, step)
    ensures var s' := Apply(s, step);
            var posted := step.Arrive? && !step.onStrand && step.task == k && exists id :: LastRoute(s', step.msg, id);
            && (k in s'.tasks <==> (k in s.tasks && step != RunSet(k)) || posted)
            && (k in s.tasks && k in s'.tasks ==> s'.tasks[k] == s.tasks[k])
            && (posted ==> LastRoute(s', step.msg, s'.tasks[k].txn) && Answers(s'.tasks[k].response, step.msg))
  {
    hide KeyOf, KeyFor, HasReference, CancelTimer, ExpireTimer, Inv;
    match step
    case Arrive(msg, onStrand, task) =>
      var s', found := Apply(s, step), Extracted(s, KeyFor(msg));
      hide Extracted;
      assert s'.routes[|s'.routes| - 1] == if found.Some? then ToTransaction(msg, found.value) else Forwarded(msg);
      assert found.Some? ==> LastRoute(s', msg, found.value);
    case _ =>
  }

  // -------------------------------------------------------------------------------------
  // Messages
  // -------------------------------------------------------------------------------------

  /** The answer to msg is stored in transaction id, or one posted task, and only one, holds it for id. */
  ghost predicate Holds(s: State, id: nat, msg: Incoming) {
    && id in s.txns && s.txns[id].extracted
    && if s.txns[id].slot.Stored? then Answers(s.txns[id].slot.response, msg)
       else exists k: nat :: OnlyTask(s, k, id) && Answers(s.tasks[k].response, msg)
  }

  ghost predicate OnlyTask(s: State, k: nat, id: nat) {
    k in s.tasks && forall l :: l in s.tasks ==> (s.tasks[l].txn == id <==> l == k)
  }

  /** No message that went to a transaction is lost on the way. */
  ghost predicate NoneLost(s: State) {
    forall i :: 0 <= i < |s.routes| && s.routes[i].ToTransaction? ==> Holds(s, s.routes[i].txn, s.routes[i].msg)
  }

  /** No transaction is sent a second message. */
  ghost predicate OneMessageEach(routes: seq<Route>) {
    forall i, j :: 0 <= i < j < |routes| && routes[i].ToTransaction? && routes[j].ToTransaction? ==> routes[i].txn != routes[j].txn
  }

  ghost predicate Came(routes: seq<Route>, id: nat, response: Response) {
    exists i :: 0 <= i < |routes| && routes[i].ToTransaction? && routes[i].txn == id && Answers(response, routes[i].msg)
  }

  /** Nothing is stored or posted but what came for that transaction. */
  ghost predicate NoneInvented(s: State) {
    && (forall id :: id in s.txns && s.txns[id].slot.Stored? ==> Came(s.routes, id, s.txns[id].slot.response))
    && (forall k :: k in s.tasks ==> Came(s.routes, s.tasks[k].txn, s.tasks[k].response))
  }

  ghost predicate MessagesOk(s: State) {
    NoneLost(s) && OneMessageEach(s.routes) && NoneInvented(s)
  }

  lemma OnlyOneTask(s: State, k: nat)
    requires Inv(s) && k in s.tasks
    ensures OnlyTask(s, k, s.tasks[k].txn)
  {
  }

  lemma HeldOn(s: State, step: Step, id: nat, msg: Incoming)
    requires Inv(s) && Enabled(s, step) && Holds(s, id, msg)
    ensures Holds(Apply(s, step), id, msg)
  {
    StepKeeps(s, step);
    TransactionLifeCycle(s, step, id);
    var s' := Apply(s, step);
    if s.txns[id].slot.Empty? {
      var k: nat :| OnlyTask(s, k, id) && Answers(s.tasks[k].response, msg);
      TaskLifeCycle(s, step, k);
      assert TaskOk(s.tasks[k], s.txns);
      if step.Arrive? { ExtractedFits(s, step.msg); }
      hide Apply, Inv, Enabled, Answers;
      if k in s'.tasks { OnlyOneTask(s', k); }
    }
  }

  /** A message that has just gone to a transaction is held for it, and is the first to be. */
  lemma HeldAtOnce(s: State, step: Step, id: nat)
    requires Inv(s) && Enabled(s, step) && step.Arrive? && LastRoute(Apply(s, step), step.msg, id)
    ensures id in s.txns && !s.txns[id].extracted && Holds(Apply(s, step), id, step.msg)
  {
    var msg, s' := step.msg, Apply(s, step);
    ExtractedFits(s, msg);
    StepKeeps(s, step);
    RoutesOfStep(s, step);
    FoundWhenRouted(s, msg, step.onStrand, step.task, id);
    TransactionLifeCycle(s, step, id);
    TaskLifeCycle(s, step, step.task);
    assert RoutedTo(s, s', step, id);
    hide Inv, Apply, Answers;
    if !step.onStrand {
      OnlyOneTask(s', step.task);
      assert OnlyTask(s', step.task, id);
    }
  }

  lemma FoundWhenRouted(s: State, msg: Incoming, onStrand: bool, task: nat, id: nat)
    requires LastRoute(HandleMessage(s, msg, onStrand, task), msg, id)
    ensures Extracted(s, KeyFor(msg)) == Some(id)
    ensures LooksUp(s, Arrive(msg, onStrand, task), id)
  {
    hide KeyOf, KeyFor, HasReference, CancelTimer;
  }

  lemma MessagesStep(s: State, step: Step)
    requires Inv(s) && MessagesOk(s) && Enabled(s, step)
    ensures MessagesOk(Apply(s, step))
  {
    var s' := Apply(s, step);
    RoutesOfStep(s, step);
    hide Inv, Apply, Enabled, Answers;
    forall i | 0 <= i < |s'.routes| && s'.routes[i].ToTransaction?
      ensures Holds(s', s'.routes[i].txn, s'.routes[i].msg)
    {
      if i < |s.routes| {
        HeldOn(s, step, s.routes[i].txn, s.routes[i].msg);
      } else {
        HeldAtOnce(s, step, s'.routes[i].txn);
      }
    }
    OneEachStep(s, step);
    NoneInventedStep(s, step);
  }

  lemma OneEachStep(s: State, step: Step)
    requires Inv(s) && MessagesOk(s) && Enabled(s, step)
    ensures OneMessageEach(Apply(s, step).routes)
  {
    var s' := Apply(s, step);
    RoutesOfStep(s, step);
    hide Inv, Apply, Enabled, Answers;
    if step.Arrive? && s'.routes[|s.routes|].ToTransaction? {
      var id := s'.routes[|s.routes|].txn;
      HeldAtOnce(s, step, id);
      forall i | 0 <= i < |s.routes| && s.routes[i].ToTransaction? ensures s.routes[i].txn != id {
        assert Holds(s, s.routes[i].txn, s.routes[i].msg);
      }
    }
  }

  lemma CameOn(routes: seq<Route>, routes': seq<Route>, id: nat, response: Response)
    requires routes <= routes' && Came(routes, id, response)
    ensures Came(routes', id, response)
  {
    hide Answers;
    var i :| 0 <= i < |routes| && routes[i].ToTransaction? && routes[i].txn == id && Answers(response, routes[i].msg);
    assert routes'[i] == routes[i];
  }

  lemma TasksCame(s: State, step: Step, k: nat)
    requires Inv(s) && NoneInvented(s) && Enabled(s, step) && k in Apply(s, step).tasks
    ensures var s' := Apply(s, step);
            Came(s'.routes, s'.tasks[k].txn, s'.tasks[k].response)
  {
    var s' := Apply(s, step);
    RoutesOfStep(s, step);
    hide Inv, Apply, Enabled, Answers;
    TaskLifeCycle(s, step, k);
    if k in s.tasks {
      CameOn(s.routes, s'.routes, s.tasks[k].txn, s.tasks[k].response);
    }
  }

  lemma StoredCame(s: State, step: Step, id: nat)
    requires Inv(s) && NoneInvented(s) && Enabled(s, step)
    requires id in Apply(s, step).txns && Apply(s, step).txns[id].slot.Stored?
    ensures var s' := Apply(s, step);
            Came(s'.routes, id, s'.txns[id].slot.response)
  {
    var s' := Apply(s, step);
    RoutesOfStep(s, step);
    hide Inv, Apply, Enabled, Answers, LooksUp, Looks;
    TransactionLifeCycle(s, step, id);
    if id in s.txns && s.txns[id].slot.Stored? {
      CameOn(s.routes, s'.routes, id, s.txns[id].slot.response);
    } else if step.RunSet? {
      CameOn(s.routes, s'.routes, id, s.tasks[step.task].response);
    }
  }

  lemma NoneInventedStep(s: State, step: Step)
    requires Inv(s) && NoneInvented(s) && Enabled(s, step)
    ensures NoneInvented(Apply(s, step))
  {
    hide Inv, Apply, Enabled, Came;
    var s' := Apply(s, step);
    forall k: nat | k in s'.tasks ensures Came(s'.routes, s'.tasks[k].txn, s'.tasks[k].response) {
      TasksCame(s, step, k);
    }
    forall id: nat | id in s'.txns && s'.txns[id].slot.Stored? ensures Came(s'.routes, id, s'.txns[id].slot.response) {
      StoredCame(s, step, id);
    }
  }

  lemma {:induction false} MessagesRun(s: State, steps: seq<Step>)
    requires Inv(s) && MessagesOk(s) && Legal(s, steps)
    ensures MessagesOk(Run(s, steps))
    decreases |steps|
  {
    if steps != [] {
      StepKeeps(s, steps[0]);
      MessagesStep(s, steps[0]);
      hide MessagesOk, Inv, Apply, Enabled;
      MessagesRun(Apply(s, steps[0]), steps[1..]);
    }
  }

  /**
   * In every reachable state each message that went to a transaction is stored there, with its own
   * kind and contents, or held by exactly one task, which if run now stores it; no transaction has
   * been sent two messages, and nothing is stored or posted that did not come.
   */
  lemma EveryMessageIsHeld(steps: seq<Step>)
    requires Legal(INIT, steps)
    ensures var s := Run(INIT, steps);
            && (forall i :: 0 <= i < |s.routes| && s.routes[i].ToTransaction? ==> Holds(s, s.routes[i].txn, s.routes[i].msg))
            && OneMessageEach(s.routes) && NoneInvented(s)
  {
    InitKeeps();
    MessagesRun(INIT, steps);
  }

  /** A posted task can be run at any time and stores what it holds, in its own transaction. */
  lemma PostedIsStored(steps: seq<Step>, k: nat)
    requires Legal(INIT, steps) && k in Run(INIT, steps).tasks
    ensures var s := Run(INIT, steps);
            var id := s.tasks[k].txn;
            && Enabled(s, RunSet(k))
            && var s' := Apply(s, RunSet(k));
               && k !in s'.tasks && id in s'.txns && s'.txns[id].slot == Stored(s.tasks[k].response, None)
               && s'.tasks == s.tasks - {k}
               && (forall j :: j in s.txns && j != id ==> s'.txns[j] == s.txns[j])
  {
    InitKeeps();
    RunKeeps(INIT, steps);
    assert TaskOk(Run(INIT, steps).tasks[k], Run(INIT, steps).txns);
  }

  // -------------------------------------------------------------------------------------
  // Receives
  // -------------------------------------------------------------------------------------

  /** The steps own, one to three of them, complete wait w, and nothing else, with a result of its own. */
  ghost predicate Completes(s: State, own: seq<Step>, w: nat, result: Result) {
    && 1 <= |own| <= 3 && Legal(s, own)
    && var s' := Run(s, own);
       w in s'.waits && s'.waits[w].phase.Completed? && s'.completions == s.completions + [(w, result)]
  }

  lemma StoredCompletes(s: State, w: nat)
    requires Inv(s) && w in s.waits && !s.waits[w].phase.Completed?
    requires s.waits[w].txn in s.txns && s.txns[s.waits[w].txn].slot.Stored?
    ensures exists own, intact :: |own| <= 2 && Completes(s, own, w, Delivered(s.txns[s.waits[w].txn].slot.response, intact))
  {
    var own := OwnSteps(w, s.waits[w].phase);
    StoredWaitCompletes(s, w);
    hide Inv, Legal, Run, OwnSteps;
    var s' := Run(s, own);
    var result := s'.completions[|s.completions|].1;
    assert s'.completions == s.completions + [(w, result)];
    assert Completes(s, own, w, Delivered(s.txns[s.waits[w].txn].slot.response, result.intact));
  }

  /**
   * A message is never stuck between its arrival and whoever waits for it: in every reachable
   * state, every outstanding wait of the transaction a message went to can be completed with that
   * message's own kind and contents, by running what was posted, if it is not stored yet, and at
   * most two steps of the wait.
   */
  lemma RoutedCanBeReceived(steps: seq<Step>, i: nat, w: nat)
    requires Legal(INIT, steps)
    requires var s := Run(INIT, steps);
             && i < |s.routes| && s.routes[i].ToTransaction?
             && w in s.waits && !s.waits[w].phase.Completed? && s.waits[w].txn == s.routes[i].txn
    ensures exists own, response, intact ::
              Completes(Run(INIT, steps), own, w, Delivered(response, intact)) && Answers(response, Run(INIT, steps).routes[i].msg)
  {
    InitKeeps();
    RunKeeps(INIT, steps);
    MessagesRun(INIT, steps);
    hide Run, Legal, Inv;
    var s := Run(INIT, steps);
    var id, msg := s.routes[i].txn, s.routes[i].msg;
    assert Holds(s, id, msg);
    if s.txns[id].slot.Stored? {
      StoredCompletes(s, w);
    } else {
      var k: nat :| OnlyTask(s, k, id) && Answers(s.tasks[k].response, msg);
      TaskCompletes(s, k, w);
    }
  }

  /** Storing a message completes nothing and leaves the transaction's waits their turns. */
  lemma SetLeavesOutstanding(s: State, id: nat, response: Response, w: nat)
    requires id in s.txns && w in s.waits && !s.waits[w].phase.Completed? && s.waits[w].txn == id
    ensures var s' := SetMessage(s, id, response);
            && s'.completions == s.completions && w in s'.waits && !s'.waits[w].phase.Completed?
            && s'.waits[w].txn == id && id in s'.txns && s'.txns[id].slot == Stored(response, None)
  {
  }

  lemma TaskCompletes(s: State, k: nat, w: nat)
    requires Inv(s) && k in s.tasks
    requires w in s.waits && !s.waits[w].phase.Completed? && s.waits[w].txn == s.tasks[k].txn
    ensures exists own, intact :: Completes(s, own, w, Delivered(s.tasks[k].response, intact))
  {
    RunSetKeeps(s, k);
    hide *;
    var id, response := s.tasks[k].txn, s.tasks[k].response;
    SetLeavesOutstanding(s.(tasks := s.tasks - {k}), id, response, w);
    var s1 := SetMessage(s.(tasks := s.tasks - {k}), id, response);
    StoredCompletes(s1, w);
    var rest, intact :| |rest| <= 2 && Completes(s1, rest, w, Delivered(response, intact));
    CompletesAfter(s, k, s1, rest, w, Delivered(response, intact));
  }

  lemma CompletesAfter(s: State, k: nat, s1: State, rest: seq<Step>, w: nat, result: Result)
    requires k in s.tasks && s.tasks[k].txn in s.txns
    requires s1 == SetMessage(s.(tasks := s.tasks - {k}), s.tasks[k].txn, s.tasks[k].response)
    requires |rest| <= 2 && Completes(s1, rest, w, result)
    ensures Completes(s, [RunSet(k)] + rest, w, result)
  {
    assert Enabled(s, RunSet(k)) && Apply(s, RunSet(k)) == s1 && s1.completions == s.completions;
    hide Apply, Enabled, SetMessage;
    StepThenRun(s, RunSet(k), rest);
  }

  /** The steps by which a wait of a transaction without a message runs into its timeout. */
  function TimeoutSteps(w: nat, wait: Wait): seq<Step> {
    match wait.phase
    case Requested => [StartWait(w), TimerExpires(wait.txn), RunWait(w)]
    case Armed => [TimerExpires(wait.txn), RunWait(w)]
    case Queued(_) => [RunWait(w)]
    case _ => []
  }

  /**
   * No receive hangs for want of a message: in every reachable state, every outstanding wait of a
   * transaction that has none can be completed empty by the expiry of its timer, aborted exactly
   * if it had been before.
   */
  lemma EmptyWaitsCanTimeOut(steps: seq<Step>, w: nat)
    requires Legal(INIT, steps)
    requires var s := Run(INIT, steps);
             w in s.waits && !s.waits[w].phase.Completed?
             && s.waits[w].txn in s.txns && s.txns[s.waits[w].txn].slot.Empty?
    ensures var s := Run(INIT, steps);
            Completes(s, TimeoutSteps(w, s.waits[w]), w, NoMessage(s.waits[w].phase == Queued(true)))
  {
    InitKeeps();
    RunKeeps(INIT, steps);
    hide Run, Legal;
    var s := Run(INIT, steps);
    assert WaitOk(w, s.waits[w], s.txns);
    hide Inv;
    hide WaitOk, Completes;
    match s.waits[w].phase
    case Requested => RequestedTimesOut(s, w);
    case Armed => ArmedTimesOut(s, w);
    case Queued(_) => QueuedEnds(s, w);
    case _ =>
  }

  lemma RequestedTimesOut(s: State, w: nat)
    requires w in s.waits && s.waits[w].phase.Requested?
    requires s.waits[w].txn in s.txns && s.txns[s.waits[w].txn].slot.Empty?
    ensures Completes(s, TimeoutSteps(w, s.waits[w]), w, NoMessage(false))
  {
    var s1 := Apply(s, StartWait(w));
    ArmedTimesOut(s1, w);
    hide Apply, Run, Legal;
    StepThenRun(s, StartWait(w), [TimerExpires(s.waits[w].txn), RunWait(w)]);
  }

  lemma QueuedEnds(s: State, w: nat)
    requires w in s.waits && s.waits[w].phase.Queued?
    requires s.waits[w].txn in s.txns && s.txns[s.waits[w].txn].slot.Empty?
    ensures Completes(s, [RunWait(w)], w, NoMessage(s.waits[w].phase.aborted))
  {
    var s' := Apply(s, RunWait(w));
    assert [RunWait(w)][1..] == [] && Legal(s', []) && Run(s', []) == s';
  }

  lemma ArmedTimesOut(s: State, w: nat)
    requires w in s.waits && s.waits[w].phase.Armed?
    requires s.waits[w].txn in s.txns && s.txns[s.waits[w].txn].slot.Empty?
    ensures Completes(s, [TimerExpires(s.waits[w].txn), RunWait(w)], w, NoMessage(false))
  {
    var s1 := Apply(s, TimerExpires(s.waits[w].txn));
    QueuedEnds(s1, w);
    StepThenRun(s, TimerExpires(s.waits[w].txn), [RunWait(w)]);
    assert [TimerExpires(s.waits[w].txn)] + [RunWait(w)] == [TimerExpires(s.waits[w].txn), RunWait(w)];
  }
}
