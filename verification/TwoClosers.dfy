/** Runs in which both sides call `close`: when the server may end the stream before its own Close frame is written. */
module TwoClosers {
  import opened Bytes
  import opened WebSockets
  import opened Handshake
  import opened HandshakeSafety

  // ---- what a step leaves as it is

  /** The close frame stays written, the stream as open as it was, and a close received is received once. */
  predicate Keeps(e: Endpoint, e': Endpoint) {
    && (e.closeWritten ==> e'.closeWritten) && e'.ended == e.ended && e'.closeFrameSent == e.closeFrameSent
    && (e.closeFrameReceived ==> e'.closeFrameReceived && e'.echoing == e.echoing)
    && e'.isServer == e.isServer
  }

  lemma SendingKeeps(e: Endpoint, text: bool, data: seq<byte>)
    ensures Keeps(e, Sending(e, text, data))
  {
  }

  lemma SameKeeps(e: Endpoint)
    ensures Keeps(e, e)
  {
  }

  lemma QueueKeeps(e: Endpoint, outbox: seq<Item>, controls: seq<Item>)
    ensures Keeps(e, e.(controls := controls)) && Keeps(e, e.(outbox := outbox))
  {
  }

  lemma FlagKeeps(e: Endpoint)
    ensures Keeps(e, e.(closeWritten := true)) && Keeps(e, e.(refused := true))
  {
  }

  lemma CallingKeeps(e: Endpoint, code: nat, reason: Option<seq<byte>>)
    ensures Keeps(e, CallingClose(e, code, reason)) && CallingClose(e, code, reason).closeFrameReceived == e.closeFrameReceived
  {
    hide CloseFor;
    if e.closeCalled {
      SameKeeps(e);
      hide Keeps;
    }
  }

  lemma ReceivingKeeps(e: Endpoint, code: nat, reason: Option<seq<byte>>)
    ensures Keeps(e, ReceivingClose(e, code, reason))
  {
    if !e.closeFrameReceived {
      var e1 := e.(closeFrameReceived := true, readyState := Closing, closeCode := Some(code), closeReason := reason,
                   writerChecks := false, echoing := !e.closeCalled);
      CallingKeeps(e1, if code == 1005 then 1000 else code, reason);
    }
    hide CallingClose;
  }

  lemma PingKeeps(e: Endpoint, payload: seq<byte>)
    ensures Keeps(e, ReceivingPing(e, payload))
  {
  }

  lemma HandleKeeps(e: Endpoint, item: Item)
    ensures Keeps(e, Handle(e, item))
  {
    hide CodePasses;
    hide ReceivingClose;
    hide ReceivingPing;
    match item
    case Data(_, _) =>
    case PongItem(_) =>
    case PingItem(payload) => PingKeeps(e, payload);
    case CloseItem(code, reason) => ReceivingKeeps(e, code, reason);
  }

  lemma ReceivedKeeps(e: Endpoint, item: Item)
    ensures Keeps(e, Received(e, item))
  {
    HandleKeeps(e.(received := e.received + [item]), item);
    hide Handle;
  }

  lemma WritingKeeps(e: Endpoint)
    requires e.outbox != []
    ensures Keeps(e, Writing(e))
  {
    hide Keeps;
    hide Writing;
    hide Throws;
    FlagKeeps(e);
    if Throws(e, e.outbox[0]) {
      WritingRefused(e);
    } else if e.outbox[0].CloseItem? {
      WritingClose(e);
    } else {
      QueueKeeps(e, e.outbox[1..], e.controls);
      WritingData(e);
    }
  }

  lemma SocketKeeps(e: Endpoint)
    ensures Keeps(e, SocketClosing(e))
  {
  }

  lemma OwnKeeps(e: Endpoint, a: Action, item: Item)
    requires !a.CloseResolves? && !a.End?
    ensures Keeps(e, OwnNext(e, a, item))
  {
    hide Keeps;
    hide Sending;
    hide CallingClose;
    hide Received;
    hide Writing;
    hide SocketClosing;
    SameKeeps(e);
    match a
    case Send(text, data) => SendingKeeps(e, text, data);
    case SendPing(payload) => QueueKeeps(e, e.outbox, e.controls + [PingItem(payload)]);
    case CallClose(code, reason) => CallingKeeps(e, code, reason);
    case WriteMain =>
      if e.outbox != [] {
        WritingKeeps(e);
      }
    case WriteControl =>
      if e.controls != [] {
        QueueKeeps(e, e.outbox, e.controls[1..]);
      }
    case Receive => ReceivedKeeps(e, item);
    case SocketCloses => SocketKeeps(e);
  }

  // ---- exactly when a close can be lost

  /** `close` resolves only after its frame is written. */
  predicate SentIsWritten(e: Endpoint) {
    e.closeFrameSent ==> e.closeWritten
  }

  /** The server's Close frame is written, or will be before it ends the stream. */
  predicate Safe(e: Endpoint) {
    e.closeFrameReceived && SentIsWritten(e) && (e.closeWritten || (e.echoing && !e.ended))
  }

  lemma ServerStep(s: System, step: Step)
    requires Enabled(s, step.side, step.action)
    ensures var e, e' := s.server, Next(s, step.side, step.action).server;
            || e' == e || Keeps(e, e')
            || (e' == e.(closeFrameSent := true) && e.closeWritten)
            || (e' == e.(ended := true) && (e.echoing ==> e.closeFrameSent))
  {
    NextIsOwn(s, step.side, step.action);
    if step.side == ServerSide {
      OwnStep(s.server, step.action, Arriving(s, ServerSide));
    }
    hide Next;
    hide OwnNext;
    hide Keeps;
  }

  lemma OwnStep(e: Endpoint, a: Action, item: Item)
    ensures if a.CloseResolves? then OwnNext(e, a, item) == e.(closeFrameSent := true)
            else if a.End? then OwnNext(e, a, item) == e.(ended := true)
            else Keeps(e, OwnNext(e, a, item))
  {
    if !a.CloseResolves? && !a.End? {
      OwnKeeps(e, a, item);
      hide OwnNext;
    }
    hide Keeps;
  }

  lemma {:induction false} RunKeepsSent(s: System, steps: seq<Step>)
    requires Possible(s, steps) && SentIsWritten(s.server)
    ensures SentIsWritten(After(s, steps).server)
    decreases |steps|
  {
    hide Enabled;
    hide Next;
    if steps != [] {
      ServerStep(s, steps[0]);
      RunKeepsSent(Next(s, steps[0].side, steps[0].action), steps[1..]);
    }
  }

  lemma {:induction false} RunKeepsSafe(s: System, steps: seq<Step>)
    requires Possible(s, steps) && Safe(s.server)
    ensures Safe(After(s, steps).server)
    decreases |steps|
  {
    hide Enabled;
    hide Next;
    if steps != [] {
      ServerStep(s, steps[0]);
      RunKeepsSafe(Next(s, steps[0].side, steps[0].action), steps[1..]);
    }
  }

  /** In any run of any callers, once the server has received a close and before it ends the stream: its own Close frame can
      be lost if and only if the server had itself called `close` before and that frame is still queued. */
  lemma LostExactlyWhenCrossing(before: seq<Step>)
    requires Possible(START, before)
    requires var e := After(START, before).server; e.isServer && e.closeFrameReceived && !e.ended
    ensures var s := After(START, before);
            (exists steps :: Possible(s, steps) && After(s, steps).server.ended && !After(s, steps).server.closeWritten)
            <==> !s.server.echoing && !s.server.closeWritten
  {
    var s := After(START, before);
    RunKeepsSent(START, before);
    if !s.server.echoing && !s.server.closeWritten {
      var t := s.(server := s.server.(ended := true));
      assert Enabled(s, ServerSide, End) && Next(s, ServerSide, End) == t;
      OneStep(s, Step(ServerSide, End), t, []);
      var steps := [Step(ServerSide, End)] + [];
      assert Possible(s, steps) && After(s, steps) == t;
    } else {
      forall steps | Possible(s, steps)
        ensures After(s, steps).server.ended ==> After(s, steps).server.closeWritten
      {
        RunKeepsSafe(s, steps);
      }
    }
    hide Enabled;
    hide Next;
  }

  // ---- such a run

  const CLOSE := CloseItem(1000, None)

  /** An endpoint that has called `close` first thing. */
  function Called(isServer: bool): Endpoint {
    Opened(isServer).(closeCalled := true, readyState := Closing, readerChecks := !isServer, outbox := [CLOSE], issued := [CLOSE])
  }

  /** Such a server when the client's close arrives. */
  function Crossed(): Endpoint {
    Called(true).(received := [CLOSE], closeFrameReceived := true, closeCode := Some(1000), writerChecks := false)
  }

  lemma FirstCall(isServer: bool)
    ensures CallingClose(Opened(isServer), 1000, None) == Called(isServer)
  {
    assert [] + [CLOSE] == [CLOSE];
  }

  lemma ClosesCross()
    ensures Received(Called(true), CLOSE) == Crossed()
  {
    assert [] + [CLOSE] == [CLOSE];
    assert CodePasses(Called(true).(received := [CLOSE]), 1000);
    hide CodePasses;
  }

  lemma ClientWrites()
    ensures Writing(Called(false)) == Called(false).(closeWritten := true)
  {
    assert !Throws(Called(false), CLOSE);
    hide Throws;
  }

  lemma OneStep(s: System, step: Step, t: System, rest: seq<Step>)
    requires Enabled(s, step.side, step.action) && Next(s, step.side, step.action) == t && Possible(t, rest)
    ensures Possible(s, [step] + rest) && After(s, [step] + rest) == After(t, rest)
  {
    hide Enabled;
    hide Next;
    assert ([step] + rest)[1..] == rest;
  }

  /** When both sides call `close`, the server can end the stream while its own Close is still queued; an ended stream takes
      no more, so that frame is never written. */
  lemma BothCloseLosesOne() returns (steps: seq<Step>)
    ensures Possible(START, steps)
    ensures var s := After(START, steps); s.server.ended && s.server.closeCalled && !s.server.closeWritten
  {
    hide CallingClose;
    hide Received;
    hide Writing;
    hide Handle;
    hide Throws;
    FirstCall(true);
    FirstCall(false);
    ClientWrites();
    ClosesCross();
    var s1 := System(Opened(false), Called(true), [], []);
    var s2 := System(Called(false), Called(true), [], []);
    var s3 := System(Called(false).(closeWritten := true), Called(true), [CLOSE], []);
    var s4 := System(Called(false).(closeWritten := true), Crossed(), [], []);
    var s5 := System(Called(false).(closeWritten := true), Crossed().(ended := true), [], []);
    steps := [];
    CrossingEnds(s4, s5);
    OneStep(s4, Step(ServerSide, End), s5, steps);
    steps := [Step(ServerSide, End)] + steps;
    CrossingArrives(s3, s4);
    OneStep(s3, Step(ServerSide, Receive), s4, steps);
    steps := [Step(ServerSide, Receive)] + steps;
    CrossingIsWritten(s2, s3);
    OneStep(s2, Step(ClientSide, WriteMain), s3, steps);
    steps := [Step(ClientSide, WriteMain)] + steps;
    CrossingIsCalled(s1, s2);
    OneStep(s1, Step(ClientSide, CallClose(1000, None)), s2, steps);
    steps := [Step(ClientSide, CallClose(1000, None))] + steps;
    CrossingBegins(s1);
    OneStep(START, Step(ServerSide, CallClose(1000, None)), s1, steps);
    steps := [Step(ServerSide, CallClose(1000, None))] + steps;
  }

  lemma CrossingBegins(s1: System)
    requires s1 == System(Opened(false), Called(true), [], [])
    ensures Enabled(START, ServerSide, CallClose(1000, None)) && Next(START, ServerSide, CallClose(1000, None)) == s1
  {
    FirstCall(true);
    hide CallingClose;
  }

  lemma CrossingIsCalled(s1: System, s2: System)
    requires s1 == System(Opened(false), Called(true), [], []) && s2 == s1.(client := Called(false))
    ensures Enabled(s1, ClientSide, CallClose(1000, None)) && Next(s1, ClientSide, CallClose(1000, None)) == s2
  {
    FirstCall(false);
    hide CallingClose;
  }

  lemma CrossingIsWritten(s2: System, s3: System)
    requires s2 == System(Called(false), Called(true), [], [])
    requires s3 == s2.(client := Called(false).(closeWritten := true), toServer := [CLOSE])
    ensures Enabled(s2, ClientSide, WriteMain) && Next(s2, ClientSide, WriteMain) == s3
  {
    ClientWrites();
    assert [] + [CLOSE] == [CLOSE];
    hide Writing;
    NextWrites(s2, ClientSide);
    hide Next;
  }

  lemma CrossingArrives(s3: System, s4: System)
    requires s3.server == Called(true) && s3.toServer == [CLOSE] && s4 == s3.(server := Crossed(), toServer := [])
    ensures Enabled(s3, ServerSide, Receive) && Next(s3, ServerSide, Receive) == s4
  {
    ClosesCross();
    hide Handle;
  }

  lemma CrossingEnds(s4: System, s5: System)
    requires s4.server == Crossed() && s5 == s4.(server := Crossed().(ended := true))
    ensures Enabled(s4, ServerSide, End) && Next(s4, ServerSide, End) == s5
  {
  }
}
