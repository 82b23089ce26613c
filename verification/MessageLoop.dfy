/**
 * The message loop of a channel: it cuts the octets it is given into messages by the length field of
 * their headers, hands each message on, and says how many octets it wants next.
 */
module MessageLoop {
  import opened Bytes

  const HEADER := 8

  /** The length field of the header at the front of s. */
  function LengthOf(s: seq<Byte>): nat
    requires |s| >= HEADER
  {
    FromBe16(s[2], s[3])
  }

  /** s starts with a complete message. */
  predicate Complete(s: seq<Byte>) {
    |s| >= HEADER && LengthOf(s) <= |s|
  }

  /** No message of length zero is reached when s is cut into messages. */
  predicate Advances(s: seq<Byte>)
    decreases |s|
  {
    Complete(s) ==> LengthOf(s) > 0 && Advances(s[LengthOf(s)..])
  }

  function Frames(s: seq<Byte>): seq<seq<Byte>>
    requires Advances(s)
    decreases |s|
  {
    if Complete(s) then [s[..LengthOf(s)]] + Frames(s[LengthOf(s)..]) else []
  }

  /** What is left after the last complete message. */
  function Rest(s: seq<Byte>): seq<Byte>
    requires Advances(s)
    decreases |s|
  {
    if Complete(s) then Rest(s[LengthOf(s)..]) else s
  }

  /** How many octets the header or the message at the front of s still lacks. */
  function Lacks(s: seq<Byte>): int {
    if |s| < HEADER then HEADER - |s| else LengthOf(s) - |s|
  }

  lemma FlattenCons(first: seq<Byte>, others: seq<seq<Byte>>, rest: seq<Byte>)
    ensures Flatten([first] + others) + rest == first + (Flatten(others) + rest)
  {
    assert ([first] + others)[1..] == others;
    assert Flatten([first] + others) == first + Flatten(others);
  }

  /** Nothing is lost, duplicated or reordered. */
  lemma {:induction false} NothingLost(s: seq<Byte>)
    requires Advances(s)
    ensures Flatten(Frames(s)) + Rest(s) == s
    ensures !Complete(Rest(s))
    decreases |s|
  {
    hide LengthOf, Flatten;
    if Complete(s) {
      var n := LengthOf(s);
      NothingLost(s[n..]);
      FlattenCons(s[..n], Frames(s[n..]), Rest(s[n..]));
      assert s[..n] + s[n..] == s;
    } else {
      FlattenNone(s);
    }
  }

  lemma FlattenNone(s: seq<Byte>)
    ensures Flatten([]) + s == s
  {
  }

  lemma FirstFrame(s: seq<Byte>)
    requires Complete(s) && Advances(s)
    ensures LengthOf(s) > 0 && Advances(s[LengthOf(s)..])
    ensures Frames(s) == [s[..LengthOf(s)]] + Frames(s[LengthOf(s)..]) && Rest(s) == Rest(s[LengthOf(s)..])
  {
  }

  lemma NoFrame(s: seq<Byte>)
    requires !Complete(s)
    ensures Advances(s) && Frames(s) == [] && Rest(s) == s
  {
  }

  /** A message as long as it says. */
  predicate WellFramed(m: seq<Byte>) {
    |m| >= HEADER && LengthOf(m) == |m|
  }

  /** Any sequence of messages of at least a header each comes back message by message. */
  lemma {:induction false} FramesOfMessages(messages: seq<seq<Byte>>)
    requires forall i :: 0 <= i < |messages| ==> WellFramed(messages[i])
    ensures Advances(Flatten(messages))
    ensures Frames(Flatten(messages)) == messages && Rest(Flatten(messages)) == []
    decreases |messages|
  {
    if messages != [] {
      FramesOfMessages(messages[1..]);
      var s := Flatten(messages);
      assert WellFramed(messages[0]);
      assert s[..|messages[0]|] == messages[0] && s[|messages[0]|..] == Flatten(messages[1..]);
    }
  }

  /** Cutting a stream as it grows is cutting what is left over together with what is new. */
  lemma {:induction false} FramesOfConcat(a: seq<Byte>, b: seq<Byte>)
    requires Advances(a + b)
    ensures Advances(a) && Advances(Rest(a) + b)
    ensures Frames(a + b) == Frames(a) + Frames(Rest(a) + b)
    ensures Rest(a + b) == Rest(Rest(a) + b)
    decreases |a|
  {
    if Complete(a) {
      var n := LengthOf(a);
      assert (a + b)[n..] == a[n..] + b && (a + b)[..n] == a[..n];
      FramesOfConcat(a[n..], b);
    }
  }

  lemma {:induction false} AdvancesOfConcat(a: seq<Byte>, b: seq<Byte>)
    requires Advances(a) && Advances(Rest(a) + b)
    ensures Advances(a + b)
    decreases |a|
  {
    if Complete(a) {
      var n := LengthOf(a);
      assert (a + b)[n..] == a[n..] + b;
      AdvancesOfConcat(a[n..], b);
    }
  }

  // -------------------------------------------------------------------------------------
  // Termination
  // -------------------------------------------------------------------------------------

  /** The buffer after k passes of the loop. */
  function Passes(s: seq<Byte>, k: nat): seq<Byte> {
    if k == 0 || !Complete(s) then s else Passes(s[LengthOf(s)..], k - 1)
  }

  /** The loop comes to an end. */
  ghost predicate Ends(s: seq<Byte>) {
    exists k: nat :: !Complete(Passes(s, k))
  }

  /** The loop ends unless it reaches a message of length zero; no other length is a problem. */
  lemma {:induction false} EndsIffAdvances(s: seq<Byte>)
    ensures Ends(s) <==> Advances(s)
    decreases |s|
  {
    if !Complete(s) {
      assert !Complete(Passes(s, 0));
    } else if LengthOf(s) == 0 {
      assert s[0..] == s;
      forall k: nat ensures Complete(Passes(s, k)) {
        StuckForever(s, k);
      }
    } else {
      var next := s[LengthOf(s)..];
      EndsIffAdvances(next);
      if Ends(next) {
        var k: nat :| !Complete(Passes(next, k));
        assert Passes(s, k + 1) == Passes(next, k);
      }
      if Ends(s) {
        var k: nat :| !Complete(Passes(s, k));
        assert k > 0 && Passes(next, k - 1) == Passes(s, k);
      }
    }
  }

  lemma {:induction false} StuckForever(s: seq<Byte>, k: nat)
    requires Complete(s) && LengthOf(s) == 0
    ensures Passes(s, k) == s
    decreases k
  {
    assert s[0..] == s;
    if k > 0 {
      StuckForever(s, k - 1);
    }
  }

  /** A header with length zero, at which the loop stays for good. */
  lemma ZeroLengthNeverEnds()
    ensures !Ends([4, 0, 0, 0, 0, 0, 0, 0])
  {
    EndsIffAdvances([4, 0, 0, 0, 0, 0, 0, 0]);
  }

  // -------------------------------------------------------------------------------------
  // The loop
  // -------------------------------------------------------------------------------------

  /** What the controller's handler is called with. */
  datatype Event = Hello | Message(octets: seq<Byte>) | Goodbye

  function Messages(frames: seq<seq<Byte>>): seq<Event> {
    seq(|frames|, i requires 0 <= i < |frames| => Message(frames[i]))
  }

  lemma MessagesOfConcat(a: seq<seq<Byte>>, b: seq<seq<Byte>>)
    ensures Messages(a + b) == Messages(a) + Messages(b)
  {
  }

  lemma MessagesOfOne(frame: seq<Byte>)
    ensures Messages([frame]) == [Message(frame)]
  {
  }

  lemma MessagesOfNone()
    ensures Messages([]) == []
  {
  }

  /** The reader's fields as a value, for speaking of whole runs. */
  datatype ReaderState = ReaderState(streambuf: seq<Byte>, reading: bool, wanted: int, log: seq<Event>)

  const STARTED := ReaderState([], true, HEADER, [Hello])

  /** How a read ends: with an error, or with at least as many octets as it wanted. */
  datatype Completion = Completion(failed: bool, chunk: seq<Byte>)

  /** What the end of a read does. */
  function OnCompletion(v: ReaderState, c: Completion): ReaderState
    requires Advances(v.streambuf + c.chunk)
  {
    var buffered := v.streambuf + c.chunk;
    var log := v.log + Messages(Frames(buffered));
    if c.failed then ReaderState(Rest(buffered), false, v.wanted, log + [Goodbye])
    else ReaderState(Rest(buffered), true, Lacks(Rest(buffered)), log)
  }

  /** A reader: its stream buffer, the read it has started, if any, and the calls it has made. */
  class Reader {
    var streambuf: seq<Byte>
    var reading: bool
    var wanted: int
    var log: seq<Event>

    constructor ()
      ensures View() == ReaderState([], false, 0, [])
    {
      streambuf, reading, wanted, log := [], false, 0, [];
    }

    function View(): ReaderState
      reads this
    {
      ReaderState(streambuf, reading, wanted, log)
    }

    /** Hand on the hello and start the first read. */
    method Run()
      requires View() == ReaderState([], false, 0, [])
      modifies this
      ensures View() == STARTED
    {
      log := log + [Hello];
      Read(HEADER);
    }

    method Read(leastSize: int)
      modifies this`wanted, this`reading
      ensures wanted == leastSize && reading
    {
      wanted, reading := leastSize, true;
    }

    method OnRead(failed: bool, chunk: seq<Byte>)
      requires reading && Advances(streambuf + chunk)
      modifies this
      ensures View() == OnCompletion(old(View()), Completion(failed, chunk))
    {
      streambuf, reading := streambuf + chunk, false;
      if failed {
        var _ := HandleRead();
        log := log + [Goodbye];
        return;
      }
      var leastSize := HandleRead();
      Read(leastSize);
    }

    /** Hand on every complete message in the buffer; the result is what the next one lacks. */
    method HandleRead() returns (leastSize: int)
      requires Advances(streambuf)
      modifies this`streambuf, this`log
      ensures log == old(log) + Messages(Frames(old(streambuf)))
      ensures streambuf == Rest(old(streambuf))
      ensures leastSize == Lacks(streambuf) && leastSize > 0
    {
      hide Advances, Frames, Rest, Messages;
      ghost var done: seq<seq<Byte>> := [];
      assert Messages([]) == [] by { MessagesOfNone(); }
      while |streambuf| >= HEADER
        invariant Advances(streambuf)
        invariant done + Frames(streambuf) == Frames(old(streambuf)) && Rest(streambuf) == Rest(old(streambuf))
        invariant log == old(log) + Messages(done)
        decreases |streambuf|
      {
        var length := LengthOf(streambuf);
        if |streambuf| < length {
          NoFrame(streambuf);
          assert done + [] == done;
          return length - |streambuf|;
        }
        FirstFrame(streambuf);
        ghost var frame := streambuf[..length];
        MessagesOfConcat(done, [frame]);
        MessagesOfOne(frame);
        assert done + ([frame] + Frames(streambuf[length..])) == (done + [frame]) + Frames(streambuf[length..]);
        done := done + [frame];
        log := log + [Message(streambuf[..length])];
        streambuf := streambuf[length..];
      }
      NoFrame(streambuf);
      assert done + [] == done;
      return HEADER - |streambuf|;
    }
  }

  // -------------------------------------------------------------------------------------
  // Runs
  // -------------------------------------------------------------------------------------

  /** The completions that can come: only while a read is under way, and with enough octets. */
  ghost predicate CanRun(v: ReaderState, cs: seq<Completion>)
    decreases |cs|
  {
    cs == [] ||
    (&& v.reading && (!cs[0].failed ==> |cs[0].chunk| >= v.wanted)
     && Advances(v.streambuf + cs[0].chunk)
     && CanRun(OnCompletion(v, cs[0]), cs[1..]))
  }

  ghost function RunAll(v: ReaderState, cs: seq<Completion>): ReaderState
    requires CanRun(v, cs)
    decreases |cs|
  {
    if cs == [] then v else RunAll(OnCompletion(v, cs[0]), cs[1..])
  }

  function Received(cs: seq<Completion>): seq<Byte> {
    if cs == [] then [] else cs[0].chunk + Received(cs[1..])
  }

  predicate Failed(cs: seq<Completion>) {
    cs != [] && cs[|cs| - 1].failed
  }

  /** Where a reader stands that has received past and is still reading. */
  ghost predicate InStep(v: ReaderState, past: seq<Byte>) {
    && Advances(past) && v.streambuf == Rest(past)
    && v.reading && v.log == [Hello] + Messages(Frames(past))
    && v.wanted == Lacks(v.streambuf) && v.wanted > 0
  }

  ghost predicate Ended(v: ReaderState, past: seq<Byte>) {
    && Advances(past) && v.streambuf == Rest(past)
    && !v.reading && v.log == [Hello] + Messages(Frames(past)) + [Goodbye]
  }

  lemma CompletionInStep(v: ReaderState, past: seq<Byte>, c: Completion)
    requires InStep(v, past) && Advances(v.streambuf + c.chunk)
    ensures var v', all := OnCompletion(v, c), past + c.chunk;
            if c.failed then Ended(v', all) else InStep(v', all)
  {
    hide Advances, Frames, Rest, Messages, Complete;
    var all := past + c.chunk;
    AdvancesOfConcat(past, c.chunk);
    FramesOfConcat(past, c.chunk);
    MessagesOfConcat(Frames(past), Frames(v.streambuf + c.chunk));
    assert v.log + Messages(Frames(v.streambuf + c.chunk)) == [Hello] + Messages(Frames(all));
    NothingLost(all);
    RestLacks(Rest(all));
  }

  lemma RestLacks(s: seq<Byte>)
    requires !Complete(s)
    ensures Lacks(s) > 0
  {
  }

  lemma {:induction false} RunFrom(v: ReaderState, past: seq<Byte>, cs: seq<Completion>)
    requires CanRun(v, cs) && InStep(v, past)
    ensures var v', all := RunAll(v, cs), past + Received(cs);
            if Failed(cs) then Ended(v', all) else InStep(v', all)
    decreases |cs|
  {
    if cs == [] {
      assert past + Received(cs) == past;
    } else {
      var c := cs[0];
      assert past + Received(cs) == (past + c.chunk) + Received(cs[1..]);
      CompletionInStep(v, past, c);
      hide InStep, Ended, Advances, OnCompletion;
      if c.failed {
        assert cs[1..] == [] by { assert !OnCompletion(v, c).reading by { EndsReading(v, c); } }
        assert past + c.chunk + Received([]) == past + c.chunk;
      } else {
        RunFrom(OnCompletion(v, c), past + c.chunk, cs[1..]);
      }
    }
  }

  lemma EndsReading(v: ReaderState, c: Completion)
    requires Advances(v.streambuf + c.chunk)
    ensures OnCompletion(v, c).reading == !c.failed
  {
  }

  /**
   * The shape of every run, however the octets are cut up: the hello first, then exactly the
   * complete messages of all that was received, in order; then, if the last read failed, one
   * goodbye and nothing after it. A read under way never waits past the next boundary.
   */
  lemma RunsAreChunkIndependent(cs: seq<Completion>)
    requires CanRun(STARTED, cs)
    ensures Advances(Received(cs))
    ensures var v, all := RunAll(STARTED, cs), Received(cs);
            && v.log == [Hello] + Messages(Frames(all)) + (if Failed(cs) then [Goodbye] else [])
            && v.streambuf == Rest(all)
            && (v.reading <==> !Failed(cs))
            && (v.reading ==> v.wanted > 0 && v.wanted == Lacks(Rest(all)))
  {
    assert [] + Received(cs) == Received(cs);
    RunFrom(STARTED, [], cs);
  }

  // -------------------------------------------------------------------------------------
  // Messages as the protocol writes them
  // -------------------------------------------------------------------------------------

  /** A message of the protocol (section A.1 of the OpenFlow Switch Specification 1.3.0). */
  datatype OfpMessage = OfpMessage(version: Byte, kind: Byte, xid: int, body: seq<Byte>)
  {
    /** Header and body together have a length of 16 bits. */
    predicate Valid() {
      0 <= xid < 0x1_0000_0000 && |body| <= 65527
    }

    function Encode(): (s: seq<Byte>)
      requires Valid()
      ensures |s| == 8 + |body|
    {
      var length := 8 + |body|;
      [version, kind, length / 256, length % 256] + Be32(xid) + body
    }
  }

  predicate AllValid(ms: seq<OfpMessage>) {
    forall i :: 0 <= i < |ms| ==> ms[i].Valid()
  }

  function EncodeAll(ms: seq<OfpMessage>): seq<seq<Byte>>
    requires AllValid(ms)
  {
    seq(|ms|, i requires 0 <= i < |ms| => ms[i].Encode())
  }

  lemma EncodedIsWellFramed(m: OfpMessage)
    requires m.Valid()
    ensures WellFramed(m.Encode())
  {
    var s, n := m.Encode(), 8 + |m.body|;
    assert s[2] == n / 256 && s[3] == n % 256;
  }

  /** What is missing of a message of which n octets have come: the header first, then all of it. */
  lemma EncodedLacks(m: OfpMessage, n: nat)
    requires m.Valid() && n < 8 + |m.body|
    ensures !Complete(m.Encode()[..n])
    ensures Lacks(m.Encode()[..n]) == if n < 8 then 8 - n else 8 + |m.body| - n
  {
    EncodedIsWellFramed(m);
    var s, p := m.Encode(), m.Encode()[..n];
    if n >= 8 {
      assert p[2] == s[2] && p[3] == s[3];
    }
  }

  /** Some messages and the first n octets of one more. */
  ghost predicate IsStream(s: seq<Byte>, ms: seq<OfpMessage>, next: OfpMessage, n: nat) {
    && AllValid(ms) && next.Valid() && n < 8 + |next.body|
    && s == Flatten(EncodeAll(ms)) + next.Encode()[..n]
  }

  /** Messages followed by an incomplete one are cut into just those messages. */
  lemma FramesOfStream(messages: seq<seq<Byte>>, tail: seq<Byte>)
    requires forall i :: 0 <= i < |messages| ==> WellFramed(messages[i])
    requires !Complete(tail)
    ensures var s := Flatten(messages) + tail;
            Advances(s) && Frames(s) == messages && Rest(s) == tail
  {
    var s := Flatten(messages);
    FramesOfMessages(messages);
    assert Rest(s) + tail == tail;
    AdvancesOfConcat(s, tail);
    FramesOfConcat(s, tail);
    assert messages + [] == messages;
  }

  lemma EncodedFrames(s: seq<Byte>, ms: seq<OfpMessage>, next: OfpMessage, n: nat)
    requires IsStream(s, ms, next, n)
    ensures Advances(s) && Frames(s) == EncodeAll(ms) && Rest(s) == next.Encode()[..n]
    ensures Lacks(Rest(s)) == if n < 8 then 8 - n else 8 + |next.body| - n
  {
    forall i | 0 <= i < |ms| ensures WellFramed(EncodeAll(ms)[i]) {
      EncodedIsWellFramed(ms[i]);
    }
    EncodedLacks(next, n);
    FramesOfStream(EncodeAll(ms), next.Encode()[..n]);
  }

  lemma {:induction false} FirstPartAdvances(a: seq<Byte>, b: seq<Byte>)
    requires Advances(a + b)
    ensures Advances(a)
  {
    FramesOfConcat(a, b);
  }

  /** The completions that can come, whatever the loop makes of the octets. */
  ghost predicate CanCome(v: ReaderState, cs: seq<Completion>)
    decreases |cs|
  {
    cs == [] ||
    (&& v.reading && (!cs[0].failed ==> |cs[0].chunk| >= v.wanted)
     && (Advances(v.streambuf + cs[0].chunk) ==> CanCome(OnCompletion(v, cs[0]), cs[1..])))
  }

  lemma {:induction false} ComingRuns(v: ReaderState, past: seq<Byte>, cs: seq<Completion>)
    requires InStep(v, past) || Ended(v, past)
    requires CanCome(v, cs) && Advances(past + Received(cs))
    ensures CanRun(v, cs)
    decreases |cs|
  {
    if cs != [] {
      var c := cs[0];
      assert past + Received(cs) == (past + c.chunk) + Received(cs[1..]);
      FirstPartAdvances(past + c.chunk, Received(cs[1..]));
      FramesOfConcat(past, c.chunk);
      CompletionInStep(v, past, c);
      hide InStep, Ended, Advances, OnCompletion;
      ComingRuns(OnCompletion(v, c), past + c.chunk, cs[1..]);
    }
  }

  /**
   * Whatever encoded messages arrive, and however reads cut them up: the loop never hangs, each
   * message is handed on whole and in order, and the next read waits for just what is missing.
   */
  lemma EncodedMessagesArrive(cs: seq<Completion>, ms: seq<OfpMessage>, next: OfpMessage, n: nat)
    requires CanCome(STARTED, cs) && IsStream(Received(cs), ms, next, n)
    ensures CanRun(STARTED, cs)
    ensures var v := RunAll(STARTED, cs);
            && v.log == [Hello] + seq(|ms|, i requires 0 <= i < |ms| => Message(ms[i].Encode()))
                        + (if Failed(cs) then [Goodbye] else [])
            && v.streambuf == next.Encode()[..n]
            && (v.reading <==> !Failed(cs))
            && (v.reading ==> v.wanted == if n < 8 then 8 - n else 8 + |next.body| - n)
  {
    EncodedFrames(Received(cs), ms, next, n);
    assert InStep(STARTED, []);
    hide Advances, Frames, Rest, Lacks, InStep, CanCome, CanRun, RunAll, Failed;
    assert [] + Received(cs) == Received(cs);
    ComingRuns(STARTED, [], cs);
    RunsAreChunkIndependent(cs);
    assert Messages(EncodeAll(ms)) == seq(|ms|, i requires 0 <= i < |ms| => Message(ms[i].Encode()));
  }

  /** Every encoded stream of at least a header can come, in one piece, and be followed by an error. */
  lemma StreamsCanCome(s: seq<Byte>, ms: seq<OfpMessage>, next: OfpMessage, n: nat)
    requires IsStream(s, ms, next, n) && |s| >= 8
    ensures var cs := [Completion(false, s), Completion(true, [])];
            CanCome(STARTED, cs) && Received(cs) == s
  {
    var first, last := Completion(false, s), Completion(true, []);
    assert [first, last][1..] == [last] && [last][1..] == [];
    assert Received([last]) == [] && Received([first, last]) == s + Received([last]);
    assert [] + s == s;
    EncodedFrames(s, ms, next, n);
    var v := OnCompletion(STARTED, first);
    assert v.reading;
    assert CanCome(v, [last]) by {
      if Advances(v.streambuf + []) {
        assert CanCome(OnCompletion(v, last), []);
      }
    }
  }
}
