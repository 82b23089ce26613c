/** The set-up object as its handlers change it in place, each against its step of the model. */
module SetupObject {
  import opened Bytes
  import opened MessageLoop
  import opened Versions
  import opened SetupConnection

  class Setup {
    const cfg: Config
    var stage: Stage
    var io: Io
    var open: bool
    var timeoutId: nat
    var waits: seq<Wait>
    var buffer: seq<Byte>
    var received: seq<Byte>
    var closings: seq<Closing>

    constructor (cfg: Config)
      ensures this.cfg == cfg && View() == FRESH
    {
      this.cfg := cfg;
      stage, io, open, timeoutId := NotStarted, NoIo, true, 0;
      waits, buffer, received, closings := [], [], [], [];
    }

    function View(): Connection
      reads this
    {
      Connection(stage, io, open, timeoutId, waits, buffer, received, closings)
    }

    // The timer

    method ExpiresFromNow()
      modifies this`timeoutId, this`waits
      ensures timeoutId == old(timeoutId) + 1 && waits == AbortAll(old(waits))
    {
      waits := AbortAll(waits);
      timeoutId := timeoutId + 1;
    }

    method AsyncWait()
      modifies this`waits
      ensures waits == old(waits) + [Wait(timeoutId, stage, Armed)]
    {
      waits := waits + [Wait(timeoutId, stage, Armed)];
    }

    method SetConnectionTimeout()
      modifies this`timeoutId, this`waits
      ensures View() == SetTimeout(old(View()))
    {
      ExpiresFromNow();
      AsyncWait();
    }

    method CancelConnectionTimeout()
      modifies this`timeoutId, this`waits
      ensures View() == CancelTimeout(old(View()))
    {
      timeoutId := timeoutId + 1;
      waits := AbortAll(waits);
    }

    method CloseSocket(reason: Reason)
      modifies this`open, this`closings
      ensures View() == Close(old(View()), reason)
    {
      open := false;
      closings := closings + [Closing(reason, stage)];
    }

    /** A success of an earlier generation is turned into an abort. */
    method TimeoutCheck(k: nat)
      requires k < |waits| && waits[k].phase.Queued?
      modifies this`waits, this`open, this`closings
      ensures View() == RunTimeout(old(View()), k)
    {
      var wait := waits[k];
      waits := waits[k := wait.(phase := Ran)];
      var aborted := wait.phase.aborted;
      if !aborted && timeoutId != wait.generation {
        aborted := true;
      }
      if !aborted {
        CloseSocket(Timeout(k));
      }
    }

    // The handshake

    method StartSetup()
      modifies this
      ensures View() == Begin(cfg, old(View()))
    {
      buffer := cfg.hello;
      stage, io := SendingHello, Outstanding;
      SetConnectionTimeout();
    }

    method GiveUp(reason: Reason)
      modifies this
      ensures View() == Abandon(old(View()), reason)
    {
      CloseSocket(reason);
      stage, io := Abandoned, NoIo;
    }

    method HelloSent(failed: bool)
      modifies this
      ensures View() == OnHelloSent(old(View()), failed)
    {
      CancelConnectionTimeout();
      if failed {
        GiveUp(SendFailed);
        return;
      }
      stage, io := ReceivingHeader, Outstanding;
      SetConnectionTimeout();
    }

    method HeaderReceived(failed: bool, header: seq<Byte>)
      requires !failed ==> |header| == HEADER
      modifies this
      ensures View() == OnHeader(cfg, old(View()), failed, header)
    {
      CancelConnectionTimeout();
      if failed {
        GiveUp(ReceiveFailed);
        return;
      }
      buffer := Overwrite(buffer, header);
      if !IsValidHello(header) {
        GiveUp(InvalidHello);
        return;
      }
      var length := LengthOf(header);
      if length == HEADER {
        buffer := Resize(buffer, HEADER);
        ChooseVersion();
      } else {
        buffer := Resize(buffer, HEADER + (length - HEADER));
        stage, io := ReceivingElements(length - HEADER), Outstanding;
        SetConnectionTimeout();
      }
    }

    method ElementsReceived(failed: bool, elements: seq<Byte>)
      modifies this
      ensures View() == OnElements(cfg, old(View()), failed, elements)
    {
      CancelConnectionTimeout();
      if failed {
        GiveUp(ReceiveFailed);
        return;
      }
      buffer := Resize(buffer, HEADER) + elements;
      ChooseVersion();
    }

    /** Offer the hello to the supported versions, greatest first. */
    method ChooseVersion()
      modifies this
      ensures View() == HandleHello(cfg, old(View()))
    {
      var support := cfg.Supporting(buffer);
      var started, sendError := StartChannel(cfg.versions, support);
      NegotiateIsRight(cfg.versions, support);
      ChoiceIsUnique(Negotiate(cfg.versions, support),
                     if sendError then Choice.Incompatible else Chosen(started[0]), cfg.versions, support);
      if sendError {
        buffer := cfg.refusal;
        stage, io := SendingError, Outstanding;
      } else {
        stage, io := HandedOver(started[0]), NoIo;
      }
    }

    method ErrorSent()
      modifies this
      ensures View() == OnErrorSent(old(View()))
    {
      GiveUp(Reason.Incompatible);
    }

    // Steps and runs

    method CompleteIo(failed: bool, data: seq<Byte>)
      modifies this`io, this`received
      ensures View() == old(View()).(io := Finished(failed, data), received := old(received) + data)
    {
      io, received := Finished(failed, data), received + data;
    }

    method ExpireTimer()
      modifies this`waits
      ensures View() == old(View()).(waits := ExpireAll(old(waits)))
    {
      waits := ExpireAll(waits);
    }

    /** The completion handler of the present stage. */
    method RunHandler()
      requires Inv(cfg, View()) && io.Finished?
      modifies this
      ensures View() == RunCompletion(cfg, old(View()))
    {
      var failed, data := io.failed, io.data;
      hide OnHelloSent, OnHeader, OnElements, OnErrorSent, TimerOk, ClosingsOk, LateOk, LastWaitOk;
      match stage {
        case SendingHello => HelloSent(failed);
        case ReceivingHeader => HeaderReceived(failed, data);
        case ReceivingElements(_) => ElementsReceived(failed, data);
        case SendingError => ErrorSent();
        case _ =>
      }
    }

    /** Any step of the model, carried out in place. */
    method Perform(step: Step)
      requires Inv(cfg, View()) && Enabled(View(), step)
      modifies this
      ensures View() == Apply(cfg, old(View()), step)
    {
      hide Inv, Begin, RunCompletion, RunTimeout;
      match step {
        case Start => StartSetup();
        case IoCompletes(failed, data) => CompleteIo(failed, data);
        case RunIo => RunHandler();
        case TimerExpires => ExpireTimer();
        case RunWait(k) => TimeoutCheck(k);
      }
    }

    /** Whatever the interleaving, set-up runs through the states of the model and keeps its invariant. */
    method PerformAll(steps: seq<Step>)
      requires Inv(cfg, View()) && Legal(cfg, View(), steps)
      modifies this
      ensures View() == Run(cfg, old(View()), steps) && Inv(cfg, View())
      decreases |steps|
    {
      if steps != [] {
        StepKeeps(cfg, View(), steps[0]);
        Perform(steps[0]);
        PerformAll(steps[1..]);
      }
    }
  }
}
