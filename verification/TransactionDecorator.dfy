/** The decorator's operations as they change its state in place, each against its step of the model. */
module TransactionDecorator {
  import opened Common
  import opened TransactionKeys
  import opened Transactions

  class Decorator {
    var registry: map<int, nat>
    var txns: map<nat, Txn>
    var waits: map<nat, Wait>
    var tasks: map<nat, Task>
    var routes: seq<Route>
    var completions: seq<(nat, Result)>

    constructor ()
      ensures View() == INIT
    {
      registry, txns, waits, tasks, routes, completions := map[], map[], map[], map[], [], [];
    }

    function View(): State
      reads this
    {
      State(registry, txns, waits, tasks, routes, completions)
    }

    method Register(id: nat, c: RequestClass, xid: int)
      requires id !in txns
      modifies this
      ensures View() == RegisterRequest(old(View()), id, c, xid)
    {
      var key := KeyOf(c, xid);
      txns := txns[id := Txn(c, xid, true, false, false, Empty, 0)];
      if key !in registry {
        registry := registry[key := id];
      }
    }

    method Destroy(id: nat)
      requires id in txns
      modifies this
      ensures View() == Destruct(old(View()), id)
    {
      var txn := txns[id];
      txns := txns[id := txn.(destroyed := true)];
      if txn.slot.Stored? {
        return;
      }
      registry := registry - {txn.Key()};
    }

    method Cancel(id: nat)
      modifies this
      ensures View() == old(View()).(waits := CancelTimer(old(waits), id))
      ensures forall w :: w in waits && waits[w].txn == id ==> !waits[w].phase.Armed?
    {
      waits := CancelTimer(waits, id);
    }

    method Set(id: nat, response: Response)
      requires id in txns
      modifies this
      ensures View() == SetMessage(old(View()), id, response)
    {
      var txn := txns[id];
      txns := txns[id := txn.(slot := Stored(response, None), sets := txn.sets + 1)];
      Cancel(id);
    }

    /** Move the message out; its kind stays. */
    method Take(id: nat, w: nat) returns (result: Result)
      requires id in txns && txns[id].slot.Stored?
      modifies this
      ensures View() == TakeMessage(old(View()), id, w) && result == TakenFrom(old(txns)[id].slot)
    {
      var slot := txns[id].slot;
      result := Delivered(slot.response, slot.taker.None?);
      if slot.taker.None? {
        txns := txns[id := txns[id].(slot := slot.(taker := Some(w)))];
      } else {
        assert txns[id := txns[id]] == txns;
      }
    }

    method StartAsyncWait(w: nat, id: nat)
      requires id in txns
      modifies this
      ensures View() == AsyncWait(old(View()), w, id)
    {
      if txns[id].slot.Stored? {
        var result := Take(id, w);
        waits := waits[w := Wait(id, Bound(result))];
      } else {
        Cancel(id);
        waits := waits[w := Wait(id, Armed)];
      }
    }

    method AsyncReceiveResponse(w: nat, id: nat, onStrand: bool)
      requires w !in waits && id in txns && txns[id].held
      modifies this
      ensures View() == Apply(old(View()), Receive(w, id, onStrand))
    {
      if onStrand {
        StartAsyncWait(w, id);
      } else {
        waits := waits[w := Wait(id, Requested)];
      }
    }

    method Finish(w: nat, result: Result)
      requires w in waits
      modifies this
      ensures View() == Complete(old(View()), w, result)
    {
      completions := completions + [(w, result)];
      waits := waits[w := waits[w].(phase := Completed)];
    }

    method WaitHandler(w: nat, aborted: bool)
      requires w in waits && waits[w].txn in txns
      modifies this
      ensures View() == RunWaitHandler(old(View()), w, aborted)
    {
      var id := waits[w].txn;
      if txns[id].slot.Stored? {
        var result := Take(id, w);
        Finish(w, result);
      } else {
        Finish(w, NoMessage(aborted));
      }
    }

    /** Look the key up, erase the entry, and lock the weak pointer it held. */
    method Extract(key: Option<int>) returns (found: Option<nat>)
      modifies this
      ensures found == Extracted(old(View()), key)
      ensures View() == AfterExtraction(old(View()), key)
    {
      found := None;
      if key.None? || key.value !in registry {
        return;
      }
      var id := registry[key.value];
      if id in txns {
        if HasReference(View(), id) {
          found := Some(id);
        }
        txns := txns[id := txns[id].(extracted := true)];
      }
      registry := registry - {key.value};
    }

    method Handle(msg: Incoming, onStrand: bool, task: nat)
      modifies this
      ensures View() == HandleMessage(old(View()), msg, onStrand, task)
    {
      var found := Extract(KeyFor(msg));
      match found {
        case Some(id) =>
          routes := routes + [ToTransaction(msg, id)];
          if onStrand {
            Set(id, ResponseFor(msg));
          } else {
            tasks := tasks[task := Task(id, ResponseFor(msg))];
          }
        case None =>
          routes := routes + [Forwarded(msg)];
      }
    }

    method RunTask(task: nat)
      requires task in tasks && tasks[task].txn in txns
      modifies this
      ensures View() == Apply(old(View()), RunSet(task))
    {
      var work := tasks[task];
      tasks := tasks - {task};
      Set(work.txn, work.response);
    }

    method Drop(id: nat)
      requires id in txns
      modifies this
      ensures View() == old(View()).(txns := old(txns)[id := old(txns)[id].(held := false)])
    {
      txns := txns[id := txns[id].(held := false)];
    }

    method TimerExpires(id: nat)
      modifies this
      ensures View() == old(View()).(waits := ExpireTimer(old(waits), id))
    {
      waits := ExpireTimer(waits, id);
    }

    /** Any step of the model, carried out in place. */
    method Perform(step: Step)
      requires Enabled(View(), step)
      modifies this
      ensures View() == Apply(old(View()), step)
    {
      hide RegisterRequest, Destruct, AsyncWait, RunWaitHandler, Complete, HandleMessage, SetMessage, CancelTimer, ExpireTimer,
        HasReference;
      match step {
        case Register(id, c, xid) => Register(id, c, xid);
        case Drop(id) => Drop(id);
        case Destroy(id) => Destroy(id);
        case Receive(w, id, onStrand) => AsyncReceiveResponse(w, id, onStrand);
        case StartWait(w) => StartAsyncWait(w, waits[w].txn);
        case TimerExpires(id) => TimerExpires(id);
        case RunWait(w) => WaitHandler(w, waits[w].phase.aborted);
        case RunBound(w) => Finish(w, waits[w].phase.result);
        case Arrive(msg, onStrand, task) => Handle(msg, onStrand, task);
        case RunSet(task) => RunTask(task);
      }
    }

    /** Whatever the interleaving, the decorator runs through the states of the model and keeps its invariant. */
    method PerformAll(steps: seq<Step>)
      requires Inv(View()) && Legal(View(), steps)
      modifies this
      ensures View() == Run(old(View()), steps) && Inv(View())
      decreases |steps|
    {
      if steps != [] {
        StepKeeps(View(), steps[0]);
        Perform(steps[0]);
        PerformAll(steps[1..]);
      }
    }
  }
}
