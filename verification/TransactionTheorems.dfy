/** What the transaction decorator guarantees over whole runs. */
module TransactionTheorems {
  import opened Common
  import opened TransactionKeys
  import opened Transactions

  // -------------------------------------------------------------------------------------
  // Waits
  // -------------------------------------------------------------------------------------

  /** In every reachable state a transaction with a message has no armed wait, and no transaction has two. */
  lemma NoLostWakeup(steps: seq<Step>)
    requires Legal(INIT, steps)
    ensures var s := Run(INIT, steps);
            && (forall w :: w in s.waits && s.waits[w].phase.Armed? ==>
                  s.waits[w].txn in s.txns && s.txns[s.waits[w].txn].slot.Empty?)
            && OneArmedEach(s.waits)
  {
    InitKeeps();
    RunKeeps(INIT, steps);
    var s := Run(INIT, steps);
    assert forall w :: w in s.waits ==> WaitOk(w, s.waits[w], s.txns);
  }

  function Completers(log: seq<(nat, Result)>): set<nat> {
    set i | 0 <= i < |log| :: log[i].0
  }

  lemma {:induction false} CompletersCount(log: seq<(nat, Result)>)
    requires CompletedOnce(log)
    ensures |Completers(log)| == |log|
    decreases |log|
  {
    if log != [] {
      var front, last := log[..|log| - 1], log[|log| - 1].0;
      CompletersCount(front);
      assert Completers(log) == Completers(front) + {last} by {
        assert forall i :: 0 <= i < |front| ==> front[i] == log[i];
        assert last in Completers(log);
      }
      assert last !in Completers(front);
    }
  }

  function Outstanding(waits: map<nat, Wait>): set<nat> {
    set w | w in waits && !waits[w].phase.Completed?
  }

  /** Every receive completes at most once: issued = outstanding + completed. */
  lemma EveryReceiveCompletesAtMostOnce(steps: seq<Step>)
    requires Legal(INIT, steps)
    ensures var s := Run(INIT, steps);
            && CompletedOnce(s.completions)
            && (forall w :: w in s.waits ==> (s.waits[w].phase.Completed? <==> Logged(w, s.completions)))
            && |s.waits| == |Outstanding(s.waits)| + |s.completions|
  {
    InitKeeps();
    RunKeeps(INIT, steps);
    hide Run, Legal, Inv;
    WaitsAreCounted(Run(INIT, steps));
  }

  lemma WaitsAreCounted(s: State)
    requires Inv(s)
    ensures CompletedOnce(s.completions)
    ensures forall w :: w in s.waits ==> (s.waits[w].phase.Completed? <==> Logged(w, s.completions))
    ensures |s.waits| == |Outstanding(s.waits)| + |s.completions|
  {
    assert forall i :: 0 <= i < |s.completions| ==> CompletionOk(s.completions[i], s.waits, s.txns);
    hide TxnsOk, RegistryOk, TasksOk, WaitsOk, OneArmedEach, TakersKnown;
    CompletersCount(s.completions);
    var done := Completers(s.completions);
    assert done !! Outstanding(s.waits);
    forall w | w in s.waits.Keys ensures w in done + Outstanding(s.waits) {
      if s.waits[w].phase.Completed? {
        assert Logged(w, s.completions);
      }
    }
    assert s.waits.Keys == done + Outstanding(s.waits);
    assert |s.waits| == |s.waits.Keys|;
  }

  lemma StoredStaysOnArrival(s: State, msg: Incoming, onStrand: bool, task: nat, id: nat)
    requires Inv(s) && ValidIncoming(msg)
    requires id in s.txns && s.txns[id].slot.Stored?
    ensures var s' := HandleMessage(s, msg, onStrand, task);
            id in s'.txns && s'.txns[id].slot.Stored? && s'.txns[id].slot.response == s.txns[id].slot.response
  {
    ExtractedFits(s, msg);
    hide Inv, KeyOf, KeyFor, HasReference, ResponseFor, CancelTimer;
  }

  lemma StoredStaysOnWaiting(s: State, w: nat, i: nat, id: nat)
    requires i in s.txns && id in s.txns && s.txns[id].slot.Stored?
    ensures var s' := AsyncWait(s, w, i);
            id in s'.txns && s'.txns[id].slot.Stored? && s'.txns[id].slot.response == s.txns[id].slot.response
  {
  }

  lemma StoredStaysOnRegistering(s: State, i: nat, c: RequestClass, xid: int, id: nat)
    requires i !in s.txns && id in s.txns
    ensures var s' := RegisterRequest(s, i, c, xid);
            id in s'.txns && s'.txns[id] == s.txns[id]
  {
    hide KeyOf;
  }

  /** A message once stored stays stored, and stays the same response. */
  lemma StoredStays(s: State, step: Step, id: nat)
    requires Inv(s) && Enabled(s, step)
    requires id in s.txns && s.txns[id].slot.Stored?
    ensures var s' := Apply(s, step);
            id in s'.txns && s'.txns[id].slot.Stored? && s'.txns[id].slot.response == s.txns[id].slot.response
  {
    if step.RunSet? {
      assert TaskOk(s.tasks[step.task], s.txns);
    }
    hide Inv, RegisterRequest, HandleMessage, AsyncWait, CancelTimer, ExpireTimer, HasReference;
    match step
    case Arrive(msg, onStrand, task) => StoredStaysOnArrival(s, msg, onStrand, task, id);
    case StartWait(w) => StoredStaysOnWaiting(s, w, s.waits[w].txn, id);
    case Receive(w, i, _) => StoredStaysOnWaiting(s, w, i, id);
    case Register(i, c, xid) => StoredStaysOnRegistering(s, i, c, xid, id);
    case _ =>
  }

  /** A completion is of a known wait, and is empty only while its transaction is. */
  ghost predicate Justified(s: State, done: (nat, Result)) {
    && done.0 in s.waits && s.waits[done.0].txn in s.txns
    && var slot := s.txns[s.waits[done.0].txn].slot;
       if done.1.Delivered? then slot.Stored? && done.1.response == slot.response else slot.Empty?
  }

  /** Waits belong to their transactions for good. */
  ghost predicate WaitsStay(waits: map<nat, Wait>, waits': map<nat, Wait>) {
    forall w :: w in waits ==> w in waits' && waits'[w].txn == waits[w].txn
  }

  lemma ArrivalCompletesNothing(s: State, msg: Incoming, onStrand: bool, task: nat)
    ensures var s' := HandleMessage(s, msg, onStrand, task);
            s'.completions == s.completions && WaitsStay(s.waits, s'.waits)
  {
    hide KeyFor, HasReference, ResponseFor;
  }

  lemma WaitingCompletesNothing(s: State, w: nat, id: nat)
    requires id in s.txns && (w in s.waits ==> s.waits[w].txn == id)
    ensures var s' := AsyncWait(s, w, id);
            s'.completions == s.completions && WaitsStay(s.waits, s'.waits)
  {
  }

  lemma RunWaitCompletes(s: State, w: nat)
    requires Enabled(s, RunWait(w))
    ensures var s' := Apply(s, RunWait(w));
            && |s'.completions| == |s.completions| + 1 && s.completions <= s'.completions
            && Justified(s, s'.completions[|s.completions|])
            && WaitsStay(s.waits, s'.waits)
  {
  }

  lemma RunBoundCompletes(s: State, w: nat)
    requires Inv(s) && Enabled(s, RunBound(w))
    ensures var s' := Apply(s, RunBound(w));
            && |s'.completions| == |s.completions| + 1 && s.completions <= s'.completions
            && Justified(s, s'.completions[|s.completions|])
            && WaitsStay(s.waits, s'.waits)
  {
    assert WaitOk(w, s.waits[w], s.txns);
  }

  predicate CompletesNothing(step: Step) {
    !step.RunWait? && !step.RunBound?
  }

  lemma OthersCompleteNothing(s: State, step: Step)
    requires Enabled(s, step) && CompletesNothing(step)
    ensures Apply(s, step).completions == s.completions && WaitsStay(s.waits, Apply(s, step).waits)
  {
    hide RegisterRequest, Destruct, HandleMessage, AsyncWait, SetMessage;
    match step
    case Register(id, c, xid) => RegisteringKeepsWaits(s, id, c, xid);
    case Destroy(id) => hide Enabled; DestructKeepsWaits(s, id);
    case Arrive(msg, onStrand, task) => ArrivalCompletesNothing(s, msg, onStrand, task);
    case StartWait(w) => WaitingCompletesNothing(s, w, s.waits[w].txn);
    case Receive(w, id, _) => WaitingCompletesNothing(s, w, id);
    case RunSet(task) =>
      SettingKeepsWaits(s.(tasks := s.tasks - {task}), s.tasks[task].txn, s.tasks[task].response);
    case _ =>
  }

  lemma RegisteringKeepsWaits(s: State, id: nat, c: RequestClass, xid: int)
    ensures var s' := RegisterRequest(s, id, c, xid);
            s'.completions == s.completions && s'.waits == s.waits
  {
    hide KeyOf;
  }

  lemma DestructKeepsWaits(s: State, id: nat)
    requires id in s.txns
    ensures Destruct(s, id).completions == s.completions && Destruct(s, id).waits == s.waits
  {
    hide KeyOf;
  }

  lemma SettingKeepsWaits(s: State, id: nat, response: Response)
    requires id in s.txns
    ensures var s' := SetMessage(s, id, response);
            s'.completions == s.completions && WaitsStay(s.waits, s'.waits)
  {
  }

  /** Steps only append to the log, and complete a wait empty only while its transaction is empty. */
  lemma CompletionsOfStep(s: State, step: Step)
    requires Inv(s) && Enabled(s, step)
    ensures var s' := Apply(s, step);
            && s.completions <= s'.completions
            && (forall i :: |s.completions| <= i < |s'.completions| ==> Justified(s, s'.completions[i]))
            && WaitsStay(s.waits, s'.waits)
  {
    hide Inv, Enabled, Apply, Justified, WaitsStay;
    match step
    case RunWait(w) => RunWaitCompletes(s, w);
    case RunBound(w) => RunBoundCompletes(s, w);
    case _ => OthersCompleteNothing(s, step);
  }

  /**
   * From the moment a message is stored, every wait of its transaction that still completes is
   * given that message, whatever its timer did before.
   */
  lemma {:induction false} StoredIsDelivered(s: State, steps: seq<Step>, id: nat, i: nat)
    requires Inv(s) && Legal(s, steps)
    requires id in s.txns && s.txns[id].slot.Stored?
    requires |s.completions| <= i < |Run(s, steps).completions|
    ensures var s' := Run(s, steps);
            var (w, result) := s'.completions[i];
            w in s'.waits && (s'.waits[w].txn == id ==>
              result.Delivered? && result.response == s.txns[id].slot.response)
    decreases |steps|
  {
    var s1 := Apply(s, steps[0]);
    StepKeeps(s, steps[0]);
    StoredStays(s, steps[0], id);
    CompletionsOfStep(s, steps[0]);
    LogIsPrefix(s1, steps[1..]);
    if i < |s1.completions| {
      assert Run(s, steps).completions[i] == s1.completions[i];
    } else {
      StoredIsDelivered(s1, steps[1..], id, i);
    }
  }

  lemma {:induction false} LogIsPrefix(s: State, steps: seq<Step>)
    requires Inv(s) && Legal(s, steps)
    ensures s.completions <= Run(s, steps).completions
    ensures WaitsStay(s.waits, Run(s, steps).waits)
    decreases |steps|
  {
    if steps != [] {
      StepKeeps(s, steps[0]);
      CompletionsOfStep(s, steps[0]);
      LogIsPrefix(Apply(s, steps[0]), steps[1..]);
    }
  }

  /** The contents of a response are handed out at most once; later receives get a moved-from message. */
  lemma ContentsDeliveredOnce(steps: seq<Step>, i: nat, j: nat)
    requires Legal(INIT, steps)
    requires i < j < |Run(INIT, steps).completions|
    ensures var s := Run(INIT, steps);
            var (v, first), (w, second) := s.completions[i], s.completions[j];
            v in s.waits && w in s.waits && !(s.waits[v].txn == s.waits[w].txn
              && first.Delivered? && first.intact && second.Delivered? && second.intact)
  {
    InitKeeps();
    RunKeeps(INIT, steps);
    var s := Run(INIT, steps);
    assert CompletionOk(s.completions[i], s.waits, s.txns) && CompletionOk(s.completions[j], s.waits, s.txns);
  }

  /** The steps by which a wait of a transaction with a message completes, unless it is armed. */
  function OwnSteps(w: nat, phase: Phase): seq<Step> {
    match phase
    case Requested => [StartWait(w), RunBound(w)]
    case Queued(_) => [RunWait(w)]
    case Bound(_) => [RunBound(w)]
    case _ => []
  }

  /** w has completed with the response, and nothing else has. */
  ghost predicate CompletedWith(s: State, s': State, w: nat, response: Response) {
    && w in s'.waits && s'.waits[w].phase.Completed?
    && |s'.completions| == |s.completions| + 1 && s.completions <= s'.completions
    && var (v, result) := s'.completions[|s.completions|];
       v == w && result.Delivered? && result.response == response
  }

  /**
   * No wakeup stays lost: in every reachable state, every outstanding wait of a transaction with
   * a message has a step of its own to take, and one or two such steps complete it with that message.
   */
  lemma StoredWaitsCanComplete(steps: seq<Step>, w: nat)
    requires Legal(INIT, steps)
    requires var s := Run(INIT, steps);
             w in s.waits && !s.waits[w].phase.Completed?
             && s.waits[w].txn in s.txns && s.txns[s.waits[w].txn].slot.Stored?
    ensures var s := Run(INIT, steps);
            var own := OwnSteps(w, s.waits[w].phase);
            && 1 <= |own| <= 2 && Legal(s, own)
            && CompletedWith(s, Run(s, own), w, s.txns[s.waits[w].txn].slot.response)
  {
    InitKeeps();
    RunKeeps(INIT, steps);
    StoredWaitCompletes(Run(INIT, steps), w);
  }

  lemma StoredWaitCompletes(s: State, w: nat)
    requires Inv(s)
    requires w in s.waits && !s.waits[w].phase.Completed?
    requires s.waits[w].txn in s.txns && s.txns[s.waits[w].txn].slot.Stored?
    ensures var own := OwnSteps(w, s.waits[w].phase);
            && 1 <= |own| <= 2 && Legal(s, own)
            && CompletedWith(s, Run(s, own), w, s.txns[s.waits[w].txn].slot.response)
  {
    assert WaitOk(w, s.waits[w], s.txns);
    hide Inv, Run, Legal;
    match s.waits[w].phase
    case Requested => RequestedCompletes(s, w);
    case _ =>
      OneStepCompletes(s, w);
  }

  lemma OneStepCompletes(s: State, w: nat)
    requires w in s.waits && (s.waits[w].phase.Queued? || s.waits[w].phase.Bound?)
    requires s.waits[w].txn in s.txns && s.txns[s.waits[w].txn].slot.Stored?
    requires WaitOk(w, s.waits[w], s.txns)
    ensures var own := OwnSteps(w, s.waits[w].phase);
            |own| == 1 && Legal(s, own) && CompletedWith(s, Run(s, own), w, s.txns[s.waits[w].txn].slot.response)
  {
    var own := OwnSteps(w, s.waits[w].phase);
    var s' := Apply(s, own[0]);
    assert own[1..] == [] && Legal(s', []) && Run(s', []) == s';
    assert CompletedWith(s, s', w, s.txns[s.waits[w].txn].slot.response);
  }

  lemma RequestedCompletes(s: State, w: nat)
    requires w in s.waits && s.waits[w].phase.Requested?
    requires s.waits[w].txn in s.txns && s.txns[s.waits[w].txn].slot.Stored?
    ensures var own := OwnSteps(w, s.waits[w].phase);
            |own| == 2 && Legal(s, own) && CompletedWith(s, Run(s, own), w, s.txns[s.waits[w].txn].slot.response)
  {
    var own := OwnSteps(w, s.waits[w].phase);
    var s1 := Apply(s, own[0]);
    assert Enabled(s1, RunBound(w)) && s1.completions == s.completions;
    var s2 := Apply(s1, own[1]);
    assert own[1..][1..] == [] && Legal(s2, []) && Run(s2, []) == s2;
    assert Legal(s1, own[1..]) && Run(s1, own[1..]) == s2;
    assert CompletedWith(s, s2, w, s.txns[s.waits[w].txn].slot.response);
  }

  // -------------------------------------------------------------------------------------
  // Sets
  // -------------------------------------------------------------------------------------

  /** The transaction a step constructs a message in, and the message. */
  ghost function SetBy(s: State, step: Step): Option<(nat, Response)> {
    match step
    case RunSet(task) => if task in s.tasks then Some((s.tasks[task].txn, s.tasks[task].response)) else None
    case Arrive(msg, true, _) =>
      var found := Extracted(s, KeyFor(msg));
      if found.Some? then Some((found.value, ResponseFor(msg))) else None
    case _ => None
  }

  /**
   * Whenever a message is set, in any run, the transaction still exists, its storage is empty,
   * and a reply is of the class the transaction was created for; no transaction is set twice.
   */
  lemma SettingIsSafe(steps: seq<Step>, step: Step)
    requires Legal(INIT, steps) && Enabled(Run(INIT, steps), step)
    ensures var s := Run(INIT, steps);
            var set_ := SetBy(s, step);
            set_.Some? ==>
              && set_.value.0 in s.txns
              && var txn := s.txns[set_.value.0];
                 txn.slot.Empty? && txn.sets == 0 && !txn.destroyed && Fits(set_.value.1, txn.kind)
    ensures forall id :: id in Run(INIT, steps).txns ==> Run(INIT, steps).txns[id].sets <= 1
  {
    InitKeeps();
    RunKeeps(INIT, steps);
    var s := Run(INIT, steps);
    assert forall id :: id in s.txns ==> TxnOk(s.txns[id]);
    match step
    case RunSet(task) => assert TaskOk(s.tasks[task], s.txns);
    case Arrive(msg, _, _) => ExtractedFits(s, msg);
    case _ =>
  }

  // -------------------------------------------------------------------------------------
  // Registry and routing
  // -------------------------------------------------------------------------------------

  /** A key is not registered again while a transaction with that key lives unanswered. */
  ghost predicate NoReuse(s: State, step: Step) {
    step.Register? ==>
      forall id :: id in s.txns && Unsettled(s.txns[id]) ==> s.txns[id].Key() != KeyOf(step.kind, step.xid)
  }

  /** Neither destroyed nor given a message. */
  predicate Unsettled(txn: Txn) {
    !txn.destroyed && txn.slot.Empty?
  }

  ghost predicate LegalWithoutReuse(s: State, steps: seq<Step>)
    decreases |steps|
  {
    steps == [] ||
    (Enabled(s, steps[0]) && NoReuse(s, steps[0]) && LegalWithoutReuse(Apply(s, steps[0]), steps[1..]))
  }

  lemma {:induction false} WithoutReuseIsLegal(s: State, steps: seq<Step>)
    requires LegalWithoutReuse(s, steps)
    ensures Legal(s, steps)
    decreases |steps|
  {
    if steps != [] {
      WithoutReuseIsLegal(Apply(s, steps[0]), steps[1..]);
    }
  }

  /** In the registry: neither destroyed nor extracted yet. */
  predicate Registered(txn: Txn) {
    !txn.destroyed && !txn.extracted
  }

  predicate EntryExact(k: int, id: nat, txns: map<nat, Txn>) {
    id in txns && txns[id].Key() == k && Registered(txns[id])
  }

  /** The registry maps exactly the keys of the registered transactions to those transactions. */
  ghost predicate RegistryExact(s: State) {
    && (forall id :: id in s.txns && Registered(s.txns[id]) ==>
          s.txns[id].Key() in s.registry && s.registry[s.txns[id].Key()] == id)
    && (forall k :: k in s.registry ==> EntryExact(k, s.registry[k], s.txns))
  }

  predicate SameUnsettledKey(t: Txn, t': Txn) {
    Unsettled(t) && Unsettled(t') && t.Key() == t'.Key()
  }

  /** No two unsettled transactions have one key. */
  ghost predicate KeysDistinct(s: State) {
    forall i, j :: i in s.txns && j in s.txns && SameUnsettledKey(s.txns[i], s.txns[j]) ==> i == j
  }

  ghost predicate SameRegistration(s: State, s': State) {
    && s'.registry == s.registry && s'.txns.Keys == s.txns.Keys
    && forall id :: id in s.txns ==>
         && s'.txns[id].Key() == s.txns[id].Key()
         && s'.txns[id].destroyed == s.txns[id].destroyed
         && s'.txns[id].extracted == s.txns[id].extracted
  }

  /** Only fewer transactions may be unsettled. */
  ghost predicate SettlingOnly(s: State, s': State) {
    && s'.txns.Keys == s.txns.Keys
    && forall id :: id in s.txns ==>
         s'.txns[id].Key() == s.txns[id].Key() && (Unsettled(s'.txns[id]) ==> Unsettled(s.txns[id]))
  }

  lemma ExactWhenSame(s: State, s': State)
    requires RegistryExact(s) && SameRegistration(s, s')
    ensures RegistryExact(s')
  {
    hide Txn.Key;
  }

  /**
   * Registering a request keeps the registry exact if and only if its key is not that of a
   * registered transaction: an entry that is there stays, and the new transaction is not found.
   */
  lemma ExactRegisterIff(s: State, id: nat, c: RequestClass, xid: int)
    requires RegistryExact(s) && id !in s.txns
    ensures RegistryExact(RegisterRequest(s, id, c, xid)) <==>
            forall j :: j in s.txns && Registered(s.txns[j]) ==> s.txns[j].Key() != KeyOf(c, xid)
  {
    hide KeyOf;
    var s' := RegisterRequest(s, id, c, xid);
    var key := s'.txns[id].Key();
    if key in s.registry {
      var j := s.registry[key];
      assert EntryExact(key, j, s.txns);
      assert !(s'.registry[key] == id);
      assert Registered(s'.txns[id]);
    }
  }

  /** The destructor finds the key of another transaction: its own entry has been extracted, with no message set. */
  predicate ErasesAnother(s: State, id: nat)
    requires id in s.txns
  {
    s.txns[id].slot.Empty? && s.txns[id].extracted && s.txns[id].Key() in s.registry
  }

  /** Destroying a transaction keeps the registry exact if and only if it does not erase another's entry. */
  lemma ExactDestructIff(s: State, id: nat)
    requires Inv(s) && RegistryExact(s) && id in s.txns && !s.txns[id].destroyed
    ensures RegistryExact(Destruct(s, id)) <==> !ErasesAnother(s, id)
  {
    assert TxnOk(s.txns[id]);
    hide KeyOf, Txn.Key, Inv;
    var key, s' := s.txns[id].Key(), Destruct(s, id);
    if key in s.registry {
      assert EntryExact(key, s.registry[key], s.txns);
    }
    if ErasesAnother(s, id) {
      var j := s.registry[key];
      assert Registered(s'.txns[j]) && key !in s'.registry;
    }
  }

  lemma ExactExtraction(s: State, key: Option<int>)
    requires RegistryExact(s)
    ensures RegistryExact(AfterExtraction(s, key))
  {
    hide KeyOf;
    var s' := AfterExtraction(s, key);
    if key.Some? && key.value in s.registry {
      var found := s.registry[key.value];
      assert EntryExact(key.value, found, s.txns);
      forall id | id in s'.txns
        ensures id in s.txns && s'.txns[id].Key() == s.txns[id].Key() && s'.txns[id].destroyed == s.txns[id].destroyed
        ensures Registered(s'.txns[id]) <==> Registered(s.txns[id]) && id != found
      {
      }
    }
  }

  /** All steps but registration, destruction and the extraction in an arrival leave registration alone. */
  lemma RegistrationUntouched(s: State, step: Step)
    requires Enabled(s, step) && !step.Register? && !step.Destroy?
    ensures SameRegistration(if step.Arrive? then AfterExtraction(s, KeyFor(step.msg)) else s, Apply(s, step))
  {
    hide KeyOf, KeyFor, CancelTimer, ExpireTimer, ResponseFor, HasReference;
    match step
    case Arrive(msg, onStrand, task) =>
      match Extracted(s, KeyFor(msg)) {
        case Some(id) =>
        case None =>
      }
    case _ =>
  }

  /** What a step must not do for the registry to stay exact; all steps but two are harmless. */
  ghost predicate Harmless(s: State, step: Step)
    requires Enabled(s, step)
  {
    match step
    case Register(_, c, xid) => forall j :: j in s.txns && Registered(s.txns[j]) ==> s.txns[j].Key() != KeyOf(c, xid)
    case Destroy(id) => !ErasesAnother(s, id)
    case _ => true
  }

  /** Exactly the harmless steps keep an exact registry exact. */
  lemma ExactStepIff(s: State, step: Step)
    requires Inv(s) && RegistryExact(s) && Enabled(s, step)
    ensures RegistryExact(Apply(s, step)) <==> Harmless(s, step)
  {
    hide RegistryExact, SameRegistration, AfterExtraction, Registered, ErasesAnother, KeyOf;
    match step
    case Register(id, c, xid) => ExactRegisterIff(s, id, c, xid);
    case Destroy(id) => ExactDestructIff(s, id);
    case Arrive(msg, _, _) =>
      RegistrationUntouched(s, step);
      ExactExtraction(s, KeyFor(msg));
      ExactWhenSame(AfterExtraction(s, KeyFor(msg)), Apply(s, step));
    case _ =>
      RegistrationUntouched(s, step);
      ExactWhenSame(s, Apply(s, step));
  }

  ghost predicate ExactThroughout(s: State, steps: seq<Step>)
    requires Legal(s, steps)
    decreases |steps|
  {
    steps == [] || (RegistryExact(Apply(s, steps[0])) && ExactThroughout(Apply(s, steps[0]), steps[1..]))
  }

  ghost predicate HarmlessThroughout(s: State, steps: seq<Step>)
    requires Legal(s, steps)
    decreases |steps|
  {
    steps == [] || (Harmless(s, steps[0]) && HarmlessThroughout(Apply(s, steps[0]), steps[1..]))
  }

  /** The registry is exact all along a run if and only if all steps of the run are harmless. */
  lemma {:induction false} ExactThroughoutIff(s: State, steps: seq<Step>)
    requires Inv(s) && RegistryExact(s) && Legal(s, steps)
    ensures ExactThroughout(s, steps) <==> HarmlessThroughout(s, steps)
    decreases |steps|
  {
    if steps != [] {
      StepKeeps(s, steps[0]);
      ExactStepIff(s, steps[0]);
      hide Inv, RegistryExact, Apply, Enabled, Harmless;
      if Harmless(s, steps[0]) {
        ExactThroughoutIff(Apply(s, steps[0]), steps[1..]);
      }
    }
  }

  /** Without key reuse every step is harmless, and keys stay distinct. */
  lemma DistinctStep(s: State, step: Step)
    requires Inv(s) && RegistryExact(s) && KeysDistinct(s) && Enabled(s, step) && NoReuse(s, step)
    ensures Harmless(s, step)
    ensures KeysDistinct(Apply(s, step))
  {
    hide KeyOf, Apply;
    match step
    case Register(id, c, xid) =>
      forall j | j in s.txns && Registered(s.txns[j]) ensures Unsettled(s.txns[j]) {
        assert TxnOk(s.txns[j]);
      }
      hide Inv;
      DistinctRegister(s, id, c, xid);
    case Destroy(id) =>
      NoOtherErased(s, id);
      StepSettlesOnly(s, step);
      DistinctWhenSettling(s, Apply(s, step));
    case _ =>
      StepSettlesOnly(s, step);
      DistinctWhenSettling(s, Apply(s, step));
  }

  lemma NoOtherErased(s: State, id: nat)
    requires Inv(s) && RegistryExact(s) && KeysDistinct(s) && id in s.txns && !s.txns[id].destroyed
    ensures !ErasesAnother(s, id)
  {
    hide KeyOf, Txn.Key;
    var key := s.txns[id].Key();
    if key in s.registry && s.txns[id].slot.Empty? {
      var j := s.registry[key];
      assert EntryExact(key, j, s.txns) && TxnOk(s.txns[j]);
      assert SameUnsettledKey(s.txns[id], s.txns[j]);
    }
  }

  lemma DistinctRegister(s: State, id: nat, c: RequestClass, xid: int)
    requires KeysDistinct(s) && Enabled(s, Register(id, c, xid)) && NoReuse(s, Register(id, c, xid))
    ensures KeysDistinct(Apply(s, Register(id, c, xid)))
  {
    hide KeyOf;
  }

  lemma DistinctWhenSettling(s: State, s': State)
    requires KeysDistinct(s) && SettlingOnly(s, s')
    ensures KeysDistinct(s')
  {
    hide Txn.Key, Unsettled;
    forall i, j | i in s'.txns && j in s'.txns && SameUnsettledKey(s'.txns[i], s'.txns[j]) ensures i == j {
      assert SameUnsettledKey(s.txns[i], s.txns[j]);
    }
  }

  lemma StepSettlesOnly(s: State, step: Step)
    requires Enabled(s, step) && !step.Register?
    ensures SettlingOnly(s, Apply(s, step))
  {
    hide KeyOf, KeyFor, CancelTimer, ExpireTimer, ResponseFor, HasReference;
    match step
    case Arrive(msg, onStrand, task) =>
      match Extracted(s, KeyFor(msg)) {
        case Some(id) =>
        case None =>
      }
    case _ =>
  }

  lemma ExactStep(s: State, step: Step)
    requires Inv(s) && RegistryExact(s) && KeysDistinct(s) && Enabled(s, step) && NoReuse(s, step)
    ensures RegistryExact(Apply(s, step)) && KeysDistinct(Apply(s, step))
  {
    hide Inv, RegistryExact, KeysDistinct, NoReuse, Harmless, Apply, Enabled;
    DistinctStep(s, step);
    ExactStepIff(s, step);
  }

  lemma {:induction false} HarmlessRunIsExact(s: State, steps: seq<Step>)
    requires Inv(s) && RegistryExact(s) && Legal(s, steps) && HarmlessThroughout(s, steps)
    ensures Inv(Run(s, steps)) && RegistryExact(Run(s, steps))
    decreases |steps|
  {
    if steps != [] {
      StepKeeps(s, steps[0]);
      ExactStepIff(s, steps[0]);
      HarmlessRunIsExact(Apply(s, steps[0]), steps[1..]);
    }
  }

  /** Not to reuse the key of an unsettled transaction is enough for all steps of a run to be harmless. */
  lemma {:induction false} WithoutReuseIsHarmless(s: State, steps: seq<Step>)
    requires Inv(s) && RegistryExact(s) && KeysDistinct(s) && LegalWithoutReuse(s, steps)
    ensures Legal(s, steps) && HarmlessThroughout(s, steps)
    decreases |steps|
  {
    WithoutReuseIsLegal(s, steps);
    if steps != [] {
      StepKeeps(s, steps[0]);
      ExactStep(s, steps[0]);
      DistinctStep(s, steps[0]);
      hide Inv, RegistryExact, KeysDistinct, Harmless, Apply, Enabled, NoReuse;
      WithoutReuseIsHarmless(Apply(s, steps[0]), steps[1..]);
    }
  }

  /** Exact, that is, in what it says of domain and entries. */
  ghost predicate Refines(s: State) {
    && s.registry.Keys == (set id | id in s.txns && Registered(s.txns[id]) :: s.txns[id].Key())
    && forall id :: id in s.txns && Registered(s.txns[id]) ==>
         s.txns[id].Key() in s.registry && s.registry[s.txns[id].Key()] == id
  }

  /**
   * In every run of harmless steps, and so in every run without key reuse, the registry's domain
   * is exactly the keys of transactions that are neither destroyed nor extracted: failed sends and
   * dropped transactions leave nothing.
   */
  lemma RegistryRefinesLiveTransactions(steps: seq<Step>)
    requires Legal(INIT, steps)
    ensures HarmlessThroughout(INIT, steps) ==> Refines(Run(INIT, steps))
    ensures LegalWithoutReuse(INIT, steps) ==> HarmlessThroughout(INIT, steps)
  {
    InitKeeps();
    if LegalWithoutReuse(INIT, steps) {
      WithoutReuseIsHarmless(INIT, steps);
    }
    if HarmlessThroughout(INIT, steps) {
      HarmlessRunIsExact(INIT, steps);
      ExactRefines(Run(INIT, steps));
    }
  }

  lemma ExactRefines(s: State)
    requires RegistryExact(s)
    ensures Refines(s)
  {
    hide KeyOf, Txn.Key;
    var keys := set id | id in s.txns && Registered(s.txns[id]) :: s.txns[id].Key();
    forall k | k in s.registry ensures k in keys {
      assert EntryExact(k, s.registry[k], s.txns);
    }
  }

  /**
   * The message answers the transaction: it is a reply of the transaction's own request class and
   * id, or an error that carries the header of its request.
   */
  predicate IsFor(msg: Incoming, txn: Txn) {
    match msg
    case ReplyIn(kind, xid, _) => RequestOf(kind) == txn.kind && xid == txn.xid
    case ErrorIn(data, _) => NamesRequest(data, txn.kind, txn.xid)
  }

  lemma IsForByKey(msg: Incoming, txn: Txn)
    requires ValidIncoming(msg) && ValidClass(txn.kind) && ValidXid(txn.xid)
    ensures IsFor(msg, txn) <==> KeyFor(msg) == Some(txn.Key())
  {
    hide NamesRequest, ErrorKey, KeyOf;
    match msg
    case ReplyIn(kind, xid, _) => KeyDeterminesClass(kind, xid, txn.kind, txn.xid);
    case ErrorIn(data, _) => ErrorNamesRequest(data, txn.kind, txn.xid);
  }

  /** The transaction a message is for: registered, and still referenced. */
  ghost predicate Awaits(s: State, id: nat, msg: Incoming) {
    id in s.txns && Registered(s.txns[id]) && HasReference(s, id) && IsFor(msg, s.txns[id])
  }

  /**
   * In every run of harmless steps, every message is routed once: to the one transaction that
   * awaits it, or, if there is none, to the next decorator.
   */
  lemma EveryMessageIsRoutedOnce(steps: seq<Step>, msg: Incoming, onStrand: bool, task: nat)
    requires Legal(INIT, steps) && HarmlessThroughout(INIT, steps)
    requires Enabled(Run(INIT, steps), Arrive(msg, onStrand, task))
    ensures var s := Run(INIT, steps);
            var s' := Apply(s, Arrive(msg, onStrand, task));
            && (forall id :: Awaits(s, id, msg) ==> s'.routes == s.routes + [ToTransaction(msg, id)])
            && ((forall id :: !Awaits(s, id, msg)) ==> s'.routes == s.routes + [Forwarded(msg)])
  {
    InitKeeps();
    HarmlessRunIsExact(INIT, steps);
    RoutedOnce(Run(INIT, steps), msg, onStrand, task);
  }

  lemma RoutedOnce(s: State, msg: Incoming, onStrand: bool, task: nat)
    requires Inv(s) && RegistryExact(s) && ValidIncoming(msg)
    ensures var s' := HandleMessage(s, msg, onStrand, task);
            && (forall id :: Awaits(s, id, msg) ==> s'.routes == s.routes + [ToTransaction(msg, id)])
            && ((forall id :: !Awaits(s, id, msg)) ==> s'.routes == s.routes + [Forwarded(msg)])
  {
    forall id: nat | id in s.txns ensures IsFor(msg, s.txns[id]) <==> KeyFor(msg) == Some(s.txns[id].Key()) {
      assert TxnOk(s.txns[id]);
      IsForByKey(msg, s.txns[id]);
    }
    hide Inv, IsFor, KeyOf, KeyFor, HasReference, ResponseFor, ValidIncoming;
    var found := Extracted(s, KeyFor(msg));
    if found.Some? {
      var key := KeyFor(msg).value;
      assert EntryExact(key, found.value, s.txns);
      assert KeyFor(msg) == Some(key);
      assert Awaits(s, found.value, msg);
    }
  }

  /** A run of one more step. */
  lemma {:induction false} StepThenRun(s: State, step: Step, steps: seq<Step>)
    requires Enabled(s, step) && Legal(Apply(s, step), steps)
    ensures Legal(s, [step] + steps) && Run(s, [step] + steps) == Run(Apply(s, step), steps)
  {
    assert ([step] + steps)[1..] == steps;
  }

  /** Transaction 1 is alive, unanswered and not registered. */
  ghost predicate LostOne(s: State) {
    s.registry == map[] && 1 in s.txns && s.txns[1].held && Registered(s.txns[1])
  }

  ghost predicate LeadsToLoss(s: State, steps: seq<Step>) {
    Legal(s, steps) && LostOne(Run(s, steps))
  }

  lemma LossBefore(s: State, step: Step, steps: seq<Step>)
    requires Enabled(s, step) && LeadsToLoss(Apply(s, step), steps)
    ensures LeadsToLoss(s, [step] + steps)
  {
    StepThenRun(s, step, steps);
  }

  lemma LossNow(s: State)
    requires LostOne(s)
    ensures LeadsToLoss(s, [])
  {
  }

  /** Two transactions registered under one key: when the first is dropped, the second is lost. */
  lemma ReuseLosesATransaction()
    ensures LeadsToLoss(INIT, [Register(0, EchoRequest, 0), Register(1, EchoRequest, 0), Drop(0), Destroy(0)])
  {
    var s1 := Apply(INIT, Register(0, EchoRequest, 0));
    var s2 := Apply(s1, Register(1, EchoRequest, 0));
    var s3 := Apply(s2, Drop(0));
    assert !HasReference(s3, 0);
    var s4 := Apply(s3, Destroy(0));
    assert s4.registry == map[];
    LossNow(s4);
    LossBefore(s3, Destroy(0), []);
    LossBefore(s2, Drop(0), [Destroy(0)]);
    LossBefore(s1, Register(1, EchoRequest, 0), [Drop(0), Destroy(0)]);
    LossBefore(INIT, Register(0, EchoRequest, 0), [Register(1, EchoRequest, 0), Drop(0), Destroy(0)]);
  }

  const LATE_ANSWER := ReplyIn(EchoReply, 0, 0)

  /**
   * A reply comes between the release of the last reference and the destructor: the entry is
   * erased, the key is registered anew, and the destructor erases the new entry.
   */
  lemma LateDestructorLosesATransaction()
    ensures LeadsToLoss(INIT, [Register(0, EchoRequest, 0), Drop(0), Arrive(LATE_ANSWER, true, 0),
                               Register(1, EchoRequest, 0), Destroy(0)])
  {
    var s1 := Apply(INIT, Register(0, EchoRequest, 0));
    var s2 := Apply(s1, Drop(0));
    assert !HasReference(s2, 0);
    var s3 := Apply(s2, Arrive(LATE_ANSWER, true, 0));
    assert s3.registry == map[] && s3.waits == map[] && s3.tasks == map[];
    var s4 := Apply(s3, Register(1, EchoRequest, 0));
    assert !HasReference(s4, 0);
    var s5 := Apply(s4, Destroy(0));
    assert s5.registry == map[];
    LossNow(s5);
    LossBefore(s4, Destroy(0), []);
    LossBefore(s3, Register(1, EchoRequest, 0), [Destroy(0)]);
    LossBefore(s2, Arrive(LATE_ANSWER, true, 0), [Register(1, EchoRequest, 0), Destroy(0)]);
    LossBefore(s1, Drop(0), [Arrive(LATE_ANSWER, true, 0), Register(1, EchoRequest, 0), Destroy(0)]);
    LossBefore(INIT, Register(0, EchoRequest, 0),
               [Drop(0), Arrive(LATE_ANSWER, true, 0), Register(1, EchoRequest, 0), Destroy(0)]);
  }
}
