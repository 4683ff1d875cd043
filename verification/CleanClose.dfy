/** How a close comes to its end: the close event exactly, that it always comes, and when it is clean on both sides. */
module CleanClose {
  import opened Bytes
  import opened WebSockets
  import opened Handshake
  import opened HandshakeSafety

  // ---- the event

  /** Whatever happened before: the event carries what was noted of the first close received, or 1006, and is clean exactly
      if this side's Close frame was sent and the other's received. */
  lemma EventOfSocket(s: System, side: Side)
    requires Enabled(s, side, SocketCloses)
    ensures var e, e' := At(s, side), At(Next(s, side, SocketCloses), side);
            && e'.readyState == Closed && e'.emitted.Some?
            && (e'.emitted.value.wasClean <==> e.closeFrameSent && e.closeFrameReceived)
            && e'.emitted.value.reason == e.closeReason
            && (e.closeCode.None? ==> e'.emitted.value.code == 1006)
            && (e.closeCode.Some? && e.closeCode.value != 0 ==> e'.emitted.value.code == e.closeCode.value)
  {
    NextCloses(s, side);
    hide Next;
  }

  lemma EndedHeard(s: System, closer: Side, side: Side)
    requires Inv(s, closer) && Enabled(s, side, SocketCloses)
    ensures At(s, side).closeFrameReceived
  {
    hide Linkages;
    hide Agreement;
    if side == ClientSide {
      SideFacts(s, ServerSide, closer);
      SideFacts(s, ClientSide, closer);
      ClosedHeard(s.server, s.client);
    }
  }

  /** With one closer the event carries the code and reason of its call, and is clean exactly if this side's own `close` had
      resolved. */
  lemma EventIsExact(s: System, closer: Side, side: Side)
    requires Reaches(s, closer) && Enabled(s, side, SocketCloses)
    ensures At(s, closer).closeCalled && Last(At(s, closer).issued).CloseItem?
    ensures var close := Last(At(s, closer).issued);
            At(Next(s, side, SocketCloses), side).emitted == Some(Outcome(close.code, close.reason, At(s, side).closeFrameSent))
  {
    ReachedInv(s, closer);
    EndedHeard(s, closer, side);
    ClosesAgree(s, closer, side);
    LegalIsNotZero(s, closer);
    NextCloses(s, side);
    hide Inv;
    hide Next;
    hide Enabled;
    hide Main;
  }

  // ---- the steps left

  /** Neither a call nor anything new. */
  predicate Internal(a: Action) {
    a.WriteMain? || a.WriteControl? || a.CloseResolves? || a.Receive? || a.End? || a.SocketCloses?
  }

  /** A ping on its way still makes a pong. */
  function Weight(item: Item): nat {
    if item.PingItem? then 4 else 1
  }

  function Weights(items: seq<Item>): nat {
    if items == [] then 0 else Weight(items[0]) + Weights(items[1..])
  }

  lemma {:induction false} WeightsSnoc(items: seq<Item>, item: Item)
    ensures Weights(items + [item]) == Weights(items) + Weight(item)
  {
    if items == [] {
      assert items + [item] == [item];
    } else {
      assert (items + [item])[1..] == items[1..] + [item];
      WeightsSnoc(items[1..], item);
    }
  }

  /** What a side has to do: each item unsent, its own close to resolve, the other's to come, the end of stream and socket. */
  function Todo(e: Endpoint): nat {
    (if e.closeWritten then 0 else 3 * |e.outbox|) + Weights(e.controls) + |e.controls|
    + (if e.closeFrameSent then 0 else 1) + (if e.closeFrameReceived then 0 else 10)
    + (if e.ended then 0 else 1) + (if e.readyState.Closed? then 0 else 1)
  }

  function Cost(s: System): nat {
    Todo(s.client) + Todo(s.server) + Weights(s.toServer) + Weights(s.toClient)
  }

  lemma PutCosts(s: System, side: Side, e: Endpoint, from: Side, items: seq<Item>)
    ensures Cost(PutFrom(Put(s, side, e), from, items)) + Todo(At(s, side)) + Weights(From(s, from))
         == Cost(s) + Todo(e) + Weights(items)
    ensures Cost(Put(s, side, e)) + Todo(At(s, side)) == Cost(s) + Todo(e)
  {
    hide Todo;
    hide Weights;
  }

  lemma WrittenTodo(e: Endpoint)
    requires e.outbox != [] && !e.closeWritten
    ensures Todo(e.(closeWritten := true)) + 3 <= Todo(e)
    ensures Todo(e.(outbox := e.outbox[1..])) + 3 == Todo(e)
  {
    hide Weights;
  }

  lemma WritingTodo(e: Endpoint)
    requires e.outbox != [] && !e.closeWritten && !Writing(e).refused
    ensures Todo(Writing(e)) + 3 <= Todo(e)
  {
    hide Todo;
    hide Throws;
    WrittenTodo(e);
  }

  lemma WriteCosts(s: System, closer: Side, side: Side)
    requires Inv(s, closer) && Enabled(s, side, WriteMain)
    ensures Cost(Next(s, side, WriteMain)) < Cost(s)
  {
    var e := At(s, side);
    CloseMayBeWritten(s, closer, side);
    SideFacts(s, side, closer);
    NextWrites(s, side);
    WeightsSnoc(From(s, side), e.outbox[0]);
    PutCosts(s, side, Writing(e), side, From(s, side) + [e.outbox[0]]);
    FrontIsMain(e);
    WritingTodo(e);
    hide Inv;
    hide Next;
    hide Writing;
    hide Todo;
    hide Cost;
  }

  lemma FrontIsMain(e: Endpoint)
    requires Own(e) && e.outbox != []
    ensures Weight(e.outbox[0]) == 1
  {
  }

  lemma ControlTodo(e: Endpoint)
    requires e.controls != []
    ensures Todo(e.(controls := e.controls[1..])) + Weight(e.controls[0]) + 1 == Todo(e)
  {
  }

  lemma ControlCosts(s: System, side: Side)
    requires Enabled(s, side, WriteControl)
    ensures Cost(Next(s, side, WriteControl)) < Cost(s)
  {
    var e := At(s, side);
    NextWritesControl(s, side);
    WeightsSnoc(From(s, side), e.controls[0]);
    PutCosts(s, side, e.(controls := e.controls[1..]), side, From(s, side) + [e.controls[0]]);
    ControlTodo(e);
    hide Next;
    hide Todo;
    hide Cost;
  }

  lemma CallingTodo(e: Endpoint, code: nat, reason: Option<seq<byte>>)
    requires !e.readyState.Closed?
    ensures Todo(CallingClose(e, code, reason)) <= Todo(e) + 3
  {
    hide CloseFor;
  }

  lemma NotedTodo(e: Endpoint, code: nat, reason: Option<seq<byte>>)
    requires !e.readyState.Closed? && !e.closeFrameReceived
    ensures var e1 := e.(closeFrameReceived := true, readyState := Closing, closeCode := Some(code), closeReason := reason,
                         writerChecks := false, echoing := !e.closeCalled);
            Todo(e1) + 10 == Todo(e)
  {
  }

  lemma ClosingTodo(e: Endpoint, code: nat, reason: Option<seq<byte>>)
    requires !e.readyState.Closed?
    ensures Todo(ReceivingClose(e, code, reason)) <= Todo(e)
  {
    if !e.closeFrameReceived {
      var e1 := e.(closeFrameReceived := true, readyState := Closing, closeCode := Some(code), closeReason := reason,
                   writerChecks := false, echoing := !e.closeCalled);
      NotedTodo(e, code, reason);
      CallingTodo(e1, if code == 1005 then 1000 else code, reason);
      hide CallingClose;
      hide Todo;
    }
  }

  lemma PingTodo(e: Endpoint, payload: seq<byte>)
    ensures Todo(ReceivingPing(e, payload)) <= Todo(e) + 2
  {
    WeightsSnoc(e.controls, PongItem(payload));
  }

  lemma ReceivedTodo(e: Endpoint, item: Item)
    requires !e.readyState.Closed?
    ensures Todo(Received(e, item)) < Todo(e) + Weight(item)
  {
    var e1 := e.(received := e.received + [item]);
    assert Todo(e1) == Todo(e) && Todo(e1.(failed := true)) == Todo(e);
    hide Todo;
    match item
    case Data(_, _) =>
    case PongItem(_) =>
    case PingItem(payload) =>
      PingTodo(e1, payload);
      hide ReceivingPing;
    case CloseItem(code, reason) =>
      ClosingTodo(e1, code, reason);
      hide ReceivingClose;
      hide CodePasses;
  }

  lemma ReceiveCosts(s: System, side: Side)
    requires Enabled(s, side, Receive)
    ensures Cost(Next(s, side, Receive)) < Cost(s)
  {
    var e, items := At(s, side), From(s, Other(side));
    NextReceives(s, side);
    ReceivedTodo(e, items[0]);
    PutCosts(s, side, Received(e, items[0]), Other(side), items[1..]);
    hide Next;
    hide Received;
    hide Todo;
    hide Cost;
  }

  lemma FlagsTodo(e: Endpoint)
    ensures !e.closeFrameSent ==> Todo(e.(closeFrameSent := true)) + 1 == Todo(e)
    ensures !e.ended ==> Todo(e.(ended := true)) + 1 == Todo(e)
  {
  }

  lemma SocketTodo(e: Endpoint)
    ensures !e.readyState.Closed? ==> Todo(SocketClosing(e)) + 1 == Todo(e)
  {
  }

  lemma ResolveCosts(s: System, side: Side)
    requires Enabled(s, side, CloseResolves)
    ensures Cost(Next(s, side, CloseResolves)) < Cost(s)
  {
    var e := At(s, side);
    assert Next(s, side, CloseResolves) == Put(s, side, e.(closeFrameSent := true));
    FlagsTodo(e);
    PutCosts(s, side, e.(closeFrameSent := true), side, []);
    hide Next;
    hide Todo;
    hide Cost;
  }

  lemma EndCosts(s: System, side: Side)
    requires Enabled(s, side, End)
    ensures Cost(Next(s, side, End)) < Cost(s)
  {
    var e := At(s, side);
    assert Next(s, side, End) == Put(s, side, e.(ended := true));
    FlagsTodo(e);
    PutCosts(s, side, e.(ended := true), side, []);
    hide Next;
    hide Todo;
    hide Cost;
  }

  lemma SocketCosts(s: System, side: Side)
    requires Enabled(s, side, SocketCloses)
    ensures Cost(Next(s, side, SocketCloses)) < Cost(s)
  {
    var e := At(s, side);
    NextCloses(s, side);
    SocketTodo(e);
    PutCosts(s, side, SocketClosing(e), side, []);
    hide Next;
    hide Todo;
    hide Cost;
    hide SocketClosing;
  }

  /** Every such step brings the handshake nearer to its end. */
  lemma MoveCosts(s: System, closer: Side, side: Side, a: Action)
    requires Inv(s, closer) && Enabled(s, side, a) && Internal(a)
    ensures Cost(Next(s, side, a)) < Cost(s)
  {
    hide Inv;
    hide Next;
    hide Cost;
    hide Enabled;
    match a
    case WriteMain => WriteCosts(s, closer, side);
    case WriteControl => ControlCosts(s, side);
    case Receive => ReceiveCosts(s, side);
    case CloseResolves => ResolveCosts(s, side);
    case End => EndCosts(s, side);
    case SocketCloses => SocketCosts(s, side);
  }

  // ---- what is possible

  lemma CalledIsQueued(e: Endpoint)
    requires Own(e) && e.closeCalled
    ensures e.outbox != [] && !e.failed && !e.refused
  {
  }

  lemma UnwrittenIsUp(s: System, side: Side)
    requires Sides(s) && Ending(s) && !At(s, side).closeWritten
    ensures !At(s, side).readyState.Closed? && !At(s, side).ended
  {
  }

  lemma SendReady(s: System, side: Side)
    ensures var e := At(s, side);
            && (Live(e) && e.outbox != [] && !e.closeWritten && !e.refused ==> Enabled(s, side, WriteMain))
            && (e.closeWritten && !e.closeFrameSent ==> Enabled(s, side, CloseResolves))
  {
    hide Live;
  }

  /** A side whose close is called writes it, and resolves it. */
  lemma SenderMoves(s: System, closer: Side, side: Side)
    requires Inv(s, closer) && At(s, side).closeCalled
    ensures || Enabled(s, side, WriteMain)
            || Enabled(s, side, CloseResolves)
            || (At(s, side).closeWritten && At(s, side).closeFrameSent)
  {
    SideFacts(s, side, closer);
    hide Own;
    hide Linked;
    hide Linkages;
    hide Agreement;
    CalledIsQueued(At(s, side));
    if !At(s, side).closeWritten {
      UnwrittenIsUp(s, side);
    }
    hide Ending;
    SendReady(s, side);
    hide Enabled;
  }

  /** What is written arrives. */
  lemma ReceiverMoves(s: System, closer: Side, side: Side)
    requires Inv(s, closer) && At(s, Other(side)).closeWritten
    ensures Enabled(s, side, Receive) || At(s, side).closeFrameReceived
  {
    SideFacts(s, side, closer);
    SideFacts(s, Other(side), closer);
    if From(s, Other(side)) == [] {
      ClosedHeard(At(s, Other(side)), At(s, side));
    }
    hide Linked;
    hide Linkages;
    hide Agreement;
  }

  lemma PeerHasClosed(s: System, closer: Side)
    requires Inv(s, closer) && At(s, Other(closer)).closeFrameReceived
    ensures At(s, Other(closer)).closeCalled
  {
    hide Linkages;
    hide Ending;
  }

  predicate Shut(s: System) {
    s.client.readyState.Closed? && s.server.readyState.Closed?
  }

  lemma LastMoves(s: System)
    requires Sides(s) && Ending(s) && !Shut(s)
    requires s.server.closeFrameSent && s.server.closeFrameReceived && s.client.closeFrameSent
    requires !s.client.failed
    ensures || Enabled(s, ServerSide, End)
            || Enabled(s, ClientSide, Receive)
            || Enabled(s, ClientSide, SocketCloses)
            || Enabled(s, ServerSide, SocketCloses)
  {
  }

  lemma NotFailed(s: System, closer: Side, side: Side)
    requires Inv(s, closer)
    ensures !At(s, side).failed
  {
    SideFacts(s, side, closer);
    hide Linked;
    hide CallsOk;
  }

  /** Once `close` is called, and until both sockets have closed, some step other than a call is possible; a socket need not
      close before the side's own `close` has resolved. */
  lemma CloseMoves(s: System, closer: Side) returns (step: Step)
    requires Inv(s, closer) && At(s, closer).closeCalled && !Shut(s)
    ensures Enabled(s, step.side, step.action) && Internal(step.action)
    ensures step.action.SocketCloses? ==> At(s, step.side).closeFrameSent
  {
    hide Inv;
    hide Enabled;
    var peer := Other(closer);
    SenderMoves(s, closer, closer);
    if Enabled(s, closer, WriteMain) {
      return Step(closer, WriteMain);
    }
    if Enabled(s, closer, CloseResolves) {
      return Step(closer, CloseResolves);
    }
    ReceiverMoves(s, closer, peer);
    if Enabled(s, peer, Receive) {
      return Step(peer, Receive);
    }
    PeerHasClosed(s, closer);
    SenderMoves(s, closer, peer);
    if Enabled(s, peer, WriteMain) {
      return Step(peer, WriteMain);
    }
    if Enabled(s, peer, CloseResolves) {
      return Step(peer, CloseResolves);
    }
    ReceiverMoves(s, closer, closer);
    if Enabled(s, closer, Receive) {
      return Step(closer, Receive);
    }
    step := LastMove(s, closer);
  }

  lemma LastMove(s: System, closer: Side) returns (step: Step)
    requires Inv(s, closer) && !Shut(s)
    requires s.server.closeFrameSent && s.server.closeFrameReceived && s.client.closeFrameSent
    ensures Enabled(s, step.side, step.action) && Internal(step.action)
    ensures step.action.SocketCloses? ==> At(s, step.side).closeFrameSent
  {
    NotFailed(s, closer, ClientSide);
    assert Sides(s) && Ending(s);
    hide Inv;
    LastMoves(s);
    hide Ending;
    step := if Enabled(s, ServerSide, End) then Step(ServerSide, End)
            else if Enabled(s, ClientSide, Receive) then Step(ClientSide, Receive)
            else if Enabled(s, ClientSide, SocketCloses) then Step(ClientSide, SocketCloses)
            else Step(ServerSide, SocketCloses);
    hide Enabled;
  }

  // ---- runs

  predicate NoCalls(steps: seq<Step>) {
    forall i :: 0 <= i < |steps| ==> Internal(steps[i].action)
  }

  /** Without calls a run of the handshake cannot go on for longer than its cost. */
  lemma {:induction false} RunIsBounded(s: System, closer: Side, steps: seq<Step>)
    requires Inv(s, closer) && Possible(s, steps) && NoCalls(steps)
    ensures |steps| + Cost(After(s, steps)) <= Cost(s)
    decreases |steps|
  {
    hide Inv;
    hide Cost;
    hide Enabled;
    hide Next;
    if steps != [] {
      MoveCosts(s, closer, steps[0].side, steps[0].action);
      StepKeepsInv(s, closer, steps[0].side, steps[0].action);
      RunIsBounded(Next(s, steps[0].side, steps[0].action), closer, steps[1..]);
    }
  }

  /** No event so far was unclean. */
  predicate NoneUnclean(s: System) {
    && (s.client.readyState.Closed? ==> s.client.emitted.Some? && s.client.emitted.value.wasClean)
    && (s.server.readyState.Closed? ==> s.server.emitted.Some? && s.server.emitted.value.wasClean)
  }

  predicate BothClean(s: System) {
    && s.client.emitted.Some? && s.client.emitted.value.wasClean
    && s.server.emitted.Some? && s.server.emitted.value.wasClean
  }

  ghost predicate ClosesCleanly(s: System, steps: seq<Step>) {
    Possible(s, steps) && NoCalls(steps) && BothClean(After(s, steps))
  }

  lemma OwnKeepsEvent(e: Endpoint, a: Action, item: Item)
    requires Internal(a) && !a.SocketCloses? && (a.Receive? ==> !e.readyState.Closed?)
    ensures var e' := OwnNext(e, a, item);
            (e'.readyState.Closed? <==> e.readyState.Closed?) && (e.readyState.Closed? ==> e'.emitted == e.emitted)
  {
    hide Received;
    hide Writing;
    if a.Receive? {
      ReceivedStaysUp(e, item);
    } else {
      OwnIsQuiet(e, a, item);
      hide OwnNext;
    }
  }

  lemma StepIsClean(s: System, closer: Side, step: Step)
    requires Inv(s, closer) && Enabled(s, step.side, step.action) && Internal(step.action) && NoneUnclean(s)
    requires step.action.SocketCloses? ==> At(s, step.side).closeFrameSent
    ensures NoneUnclean(Next(s, step.side, step.action))
  {
    NextIsOwn(s, step.side, step.action);
    if step.action.SocketCloses? {
      EndedHeard(s, closer, step.side);
      EventOfSocket(s, step.side);
    } else {
      OwnKeepsEvent(At(s, step.side), step.action, Arriving(s, step.side));
    }
    hide Inv;
    hide Next;
    hide OwnNext;
  }

  lemma StaysCalled(s: System, closer: Side, step: Step)
    requires Inv(s, closer) && At(s, closer).closeCalled && Enabled(s, step.side, step.action) && Internal(step.action)
    ensures At(Next(s, step.side, step.action), closer).closeCalled
  {
    StepIssues(s, closer, step);
    hide Inv;
    hide Next;
    hide Enabled;
  }

  lemma CleanCons(s: System, step: Step, rest: seq<Step>)
    requires Enabled(s, step.side, step.action) && Internal(step.action)
    requires ClosesCleanly(Next(s, step.side, step.action), rest)
    ensures ClosesCleanly(s, [step] + rest)
  {
    hide Enabled;
    hide Next;
    hide BothClean;
    assert ([step] + rest)[1..] == rest;
  }

  lemma {:induction false} CleanRunExists(s: System, closer: Side)
    requires Inv(s, closer) && At(s, closer).closeCalled && NoneUnclean(s)
    ensures exists steps :: ClosesCleanly(s, steps)
    decreases Cost(s)
  {
    hide Inv;
    hide Cost;
    hide Enabled;
    hide Next;
    if Shut(s) {
      assert ClosesCleanly(s, []);
    } else {
      var step := CloseMoves(s, closer);
      var t := Next(s, step.side, step.action);
      MoveCosts(s, closer, step.side, step.action);
      StepKeepsInv(s, closer, step.side, step.action);
      StepIsClean(s, closer, step);
      StaysCalled(s, closer, step);
      CleanRunExists(t, closer);
      var rest :| ClosesCleanly(t, rest);
      CleanCons(s, step, rest);
    }
  }

  lemma EventStays(s: System, closer: Side, step: Step, side: Side)
    requires Inv(s, closer) && Enabled(s, step.side, step.action) && Internal(step.action) && At(s, side).readyState.Closed?
    ensures var e, e' := At(s, side), At(Next(s, step.side, step.action), side);
            e'.readyState.Closed? && e'.emitted == e.emitted
  {
    NextIsOwn(s, step.side, step.action);
    if step.side == side {
      OwnKeepsEvent(At(s, side), step.action, Arriving(s, side));
    }
    hide Inv;
    hide Next;
    hide OwnNext;
  }

  lemma {:induction false} EventStaysLong(s: System, closer: Side, steps: seq<Step>, side: Side)
    requires Inv(s, closer) && Possible(s, steps) && NoCalls(steps) && At(s, side).readyState.Closed?
    ensures At(After(s, steps), side).emitted == At(s, side).emitted
    decreases |steps|
  {
    hide Inv;
    hide Enabled;
    hide Next;
    if steps != [] {
      EventStays(s, closer, steps[0], side);
      StepKeepsInv(s, closer, steps[0].side, steps[0].action);
      EventStaysLong(Next(s, steps[0].side, steps[0].action), closer, steps[1..], side);
    }
  }

  /** Exactly when a close can still end cleanly: once `close` is called, some continuation leads to a clean close event on
      both sides if and only if no event so far was unclean. */
  lemma CleanExactly(s: System, closer: Side)
    requires Reaches(s, closer) && At(s, closer).closeCalled
    ensures (exists steps :: ClosesCleanly(s, steps)) <==> NoneUnclean(s)
  {
    ReachedInv(s, closer);
    hide Inv;
    if NoneUnclean(s) {
      CleanRunExists(s, closer);
    }
    forall steps | ClosesCleanly(s, steps)
      ensures NoneUnclean(s)
    {
      if s.client.readyState.Closed? {
        EventStaysLong(s, closer, steps, ClientSide);
      }
      if s.server.readyState.Closed? {
        EventStaysLong(s, closer, steps, ServerSide);
      }
    }
  }

  lemma {:induction false} RunStaysCalled(s: System, closer: Side, steps: seq<Step>)
    requires Inv(s, closer) && Possible(s, steps) && NoCalls(steps) && At(s, closer).closeCalled
    ensures At(After(s, steps), closer).closeCalled
    decreases |steps|
  {
    hide Inv;
    hide Enabled;
    hide Next;
    if steps != [] {
      StaysCalled(s, closer, steps[0]);
      StepKeepsInv(s, closer, steps[0].side, steps[0].action);
      RunStaysCalled(Next(s, steps[0].side, steps[0].action), closer, steps[1..]);
    }
  }

  lemma NoCallsOneCloser(closer: Side, steps: seq<Step>)
    requires NoCalls(steps)
    ensures OneCloser(closer, steps)
  {
  }

  /** A close always completes: once `close` is called, a run without further calls has a bounded number of steps, and where
      it cannot go on both sockets have closed. */
  lemma CloseCompletes(s: System, closer: Side, steps: seq<Step>)
    requires Reaches(s, closer) && At(s, closer).closeCalled && Possible(s, steps) && NoCalls(steps)
    ensures |steps| <= Cost(s)
    ensures var t := After(s, steps);
            || Shut(t)
            || exists step: Step :: Internal(step.action) && Enabled(t, step.side, step.action)
  {
    ReachedInv(s, closer);
    hide Inv;
    hide Cost;
    hide Enabled;
    hide Next;
    hide After;
    hide Possible;
    RunIsBounded(s, closer, steps);
    NoCallsOneCloser(closer, steps);
    RunKeepsInv(s, closer, steps);
    RunStaysCalled(s, closer, steps);
    if !Shut(After(s, steps)) {
      var step := CloseMoves(After(s, steps), closer);
    }
  }

  // ---- without a close

  lemma UnclosedIsLive(s: System, closer: Side, side: Side)
    requires Inv(s, closer) && !At(s, closer).closeCalled
    ensures Live(At(s, side)) && !At(s, side).closeWritten && !At(s, side).refused
  {
    SideFacts(s, ClientSide, closer);
    SideFacts(s, ServerSide, closer);
    WrittenIsCalled(s.client);
    WrittenIsCalled(s.server);
    NothingRefused(s.client);
    NothingRefused(s.server);
    hide Own;
    hide Linked;
    hide Linkages;
  }

  lemma QuietIsEmpty(s: System, side: Side)
    requires Live(At(s, side)) && !At(s, side).closeWritten && !At(s, side).refused
    requires forall a :: Internal(a) ==> !Enabled(s, side, a)
    ensures At(s, side).outbox == [] && At(s, side).controls == [] && From(s, Other(side)) == []
  {
    assert !Enabled(s, side, WriteMain) && !Enabled(s, side, WriteControl) && !Enabled(s, side, Receive);
  }

  lemma EmptyIsDelivered(e: Endpoint, o: Endpoint)
    requires Linked(e, [], o) && e.outbox == [] && !e.closeWritten && e.controls == []
    ensures Main(o.received) == e.issued && Pongs(o.received) == Answers(e.received)
  {
    assert Main(o.received) + [] + [] == Main(o.received);
    assert Pongs(o.received) + [] + [] == Pongs(o.received);
    hide Answers;
  }

  /** As long as nobody has called `close`, a run without further calls ends with everything delivered: where no step is
      possible, both queues and both channels are empty, each side has received all messages the other sent, and for each
      of its pings a pong. */
  lemma QuietIsDelivered(s: System, closer: Side, steps: seq<Step>, side: Side)
    requires Reaches(s, closer) && Possible(s, steps) && NoCalls(steps)
    requires var t := After(s, steps);
             && !At(t, closer).closeCalled
             && forall side': Side, a :: Internal(a) ==> !Enabled(t, side', a)
    ensures |steps| <= Cost(s)
    ensures var t := After(s, steps);
            && At(t, side).outbox == [] && At(t, side).controls == [] && From(t, side) == []
            && Main(At(t, Other(side)).received) == At(t, side).issued
            && Pongs(At(t, Other(side)).received) == Answers(At(t, side).received)
  {
    var t := After(s, steps);
    hide After;
    hide Possible;
    hide Cost;
    ReachedInv(s, closer);
    RunIsBounded(s, closer, steps);
    NoCallsOneCloser(closer, steps);
    RunKeepsInv(s, closer, steps);
    UnclosedIsLive(t, closer, side);
    UnclosedIsLive(t, closer, Other(side));
    SideFacts(t, side, closer);
    hide Inv;
    QuietIsEmpty(t, side);
    QuietIsEmpty(t, Other(side));
    EmptyIsDelivered(At(t, side), At(t, Other(side)));
    hide Main;
    hide Pongs;
    hide Answers;
    hide Enabled;
  }

  // ---- an unclean end

  lemma WriterMoves(s: System, closer: Side, side: Side)
    requires Inv(s, closer) && At(s, side).closeCalled
    ensures Enabled(s, side, WriteMain) || At(s, side).closeWritten
  {
    SenderMoves(s, closer, side);
    hide Inv;
  }

  lemma StreamMoves(s: System)
    requires s.server.isServer && s.server.closeFrameSent && s.server.closeFrameReceived
    requires !s.client.readyState.Closed? && !s.client.failed
    ensures Enabled(s, ServerSide, End) || Enabled(s, ClientSide, Receive) || Enabled(s, ClientSide, SocketCloses)
  {
  }

  /** The client's socket can close without the client's `close` having resolved. */
  lemma LazyMove(s: System) returns (step: Step)
    requires Inv(s, ClientSide) && s.client.closeCalled && !s.client.readyState.Closed?
    ensures Enabled(s, step.side, step.action) && Internal(step.action) && step != Step(ClientSide, CloseResolves)
  {
    assert Sides(s);
    hide Inv;
    hide Enabled;
    WriterMoves(s, ClientSide, ClientSide);
    if Enabled(s, ClientSide, WriteMain) {
      return Step(ClientSide, WriteMain);
    }
    ReceiverMoves(s, ClientSide, ServerSide);
    if Enabled(s, ServerSide, Receive) {
      return Step(ServerSide, Receive);
    }
    PeerHasClosed(s, ClientSide);
    SenderMoves(s, ClientSide, ServerSide);
    if Enabled(s, ServerSide, WriteMain) {
      return Step(ServerSide, WriteMain);
    }
    if Enabled(s, ServerSide, CloseResolves) {
      return Step(ServerSide, CloseResolves);
    }
    NotFailed(s, ClientSide, ClientSide);
    StreamMoves(s);
    step := if Enabled(s, ServerSide, End) then Step(ServerSide, End)
            else if Enabled(s, ClientSide, Receive) then Step(ClientSide, Receive)
            else Step(ClientSide, SocketCloses);
  }

  lemma ReceivedResolvesNothing(e: Endpoint, item: Item)
    ensures Received(e, item).closeFrameSent == e.closeFrameSent
  {
    var e1 := e.(received := e.received + [item]);
    if item.CloseItem? {
      ClosingResolvesNothing(e1, item.code, item.reason);
    }
    hide CodePasses;
    hide ReceivingClose;
  }

  lemma ClosingResolvesNothing(e: Endpoint, code: nat, reason: Option<seq<byte>>)
    ensures ReceivingClose(e, code, reason).closeFrameSent == e.closeFrameSent
  {
    hide CloseFor;
  }

  lemma FlagsResolveNothing(e: Endpoint)
    ensures e.(refused := true).closeFrameSent == e.closeFrameSent && e.(closeWritten := true).closeFrameSent == e.closeFrameSent
    ensures e.(ended := true).closeFrameSent == e.closeFrameSent
  {
  }

  lemma QueuesResolveNothing(e: Endpoint, outbox: seq<Item>, controls: seq<Item>)
    ensures e.(outbox := outbox).closeFrameSent == e.closeFrameSent && e.(controls := controls).closeFrameSent == e.closeFrameSent
  {
  }

  lemma SocketResolvesNothing(e: Endpoint)
    ensures SocketClosing(e).closeFrameSent == e.closeFrameSent
  {
  }

  lemma WritingResolvesNothing(e: Endpoint)
    requires e.outbox != []
    ensures Writing(e).closeFrameSent == e.closeFrameSent
  {
    FlagsResolveNothing(e);
    QueuesResolveNothing(e, e.outbox[1..], e.controls);
    hide Writing;
    hide Throws;
    if Throws(e, e.outbox[0]) {
      WritingRefused(e);
    } else if e.outbox[0].CloseItem? {
      WritingClose(e);
    } else {
      WritingData(e);
    }
  }

  lemma OwnResolves(e: Endpoint, a: Action, item: Item)
    requires Internal(a) && !a.CloseResolves?
    ensures OwnNext(e, a, item).closeFrameSent == e.closeFrameSent
  {
    FlagsResolveNothing(e);
    hide Received;
    hide Writing;
    hide SocketClosing;
    match a
    case WriteMain =>
      if e.outbox != [] {
        WritingResolvesNothing(e);
      }
    case Receive => ReceivedResolvesNothing(e, item);
    case WriteControl =>
      if e.controls != [] {
        QueuesResolveNothing(e, e.outbox, e.controls[1..]);
      }
    case End =>
    case SocketCloses => SocketResolvesNothing(e);
  }

  lemma StepResolves(s: System, step: Step)
    requires Enabled(s, step.side, step.action) && Internal(step.action) && step != Step(ClientSide, CloseResolves)
    ensures Next(s, step.side, step.action).client.closeFrameSent == s.client.closeFrameSent
  {
    NextIsOwn(s, step.side, step.action);
    if step.side == ClientSide {
      OwnResolves(s.client, step.action, Arriving(s, ClientSide));
    }
    hide Next;
    hide OwnNext;
    hide Enabled;
  }

  /** Until its socket closes the client gets no event; then, if its `close` has not resolved, an unclean one. */
  lemma LazyStep(s: System, step: Step)
    requires Inv(s, ClientSide) && Enabled(s, step.side, step.action) && Internal(step.action)
    requires !s.client.readyState.Closed? && !s.client.closeFrameSent
    ensures var t := Next(s, step.side, step.action);
            t.client.readyState.Closed? ==> t.client.emitted.Some? && !t.client.emitted.value.wasClean
  {
    NextIsOwn(s, step.side, step.action);
    if step.side == ClientSide {
      if step.action.SocketCloses? {
        EventOfSocket(s, ClientSide);
      } else {
        OwnKeepsEvent(s.client, step.action, Arriving(s, ClientSide));
      }
    }
    hide Inv;
    hide Next;
    hide OwnNext;
  }

  ghost predicate ClosesUncleanly(s: System, steps: seq<Step>) {
    && Possible(s, steps) && NoCalls(steps)
    && var e := After(s, steps).client; e.emitted.Some? && !e.emitted.value.wasClean
  }

  lemma UncleanCons(s: System, step: Step, rest: seq<Step>)
    requires Enabled(s, step.side, step.action) && Internal(step.action)
    requires ClosesUncleanly(Next(s, step.side, step.action), rest)
    ensures ClosesUncleanly(s, [step] + rest)
  {
    hide Enabled;
    hide Next;
    assert ([step] + rest)[1..] == rest;
  }

  /** An unclean end is possible: as long as the `close` of a client has not resolved, its socket may close first. */
  lemma {:induction false} UncleanPossible(s: System)
    requires Inv(s, ClientSide) && s.client.closeCalled && !s.client.readyState.Closed? && !s.client.closeFrameSent
    ensures exists steps :: ClosesUncleanly(s, steps)
    decreases Cost(s)
  {
    hide Inv;
    hide Cost;
    hide Enabled;
    hide Next;
    var step := LazyMove(s);
    var t := Next(s, step.side, step.action);
    MoveCosts(s, ClientSide, step.side, step.action);
    StepKeepsInv(s, ClientSide, step.side, step.action);
    StaysCalled(s, ClientSide, step);
    StepResolves(s, step);
    LazyStep(s, step);
    if t.client.readyState.Closed? {
      assert ClosesUncleanly(t, []);
    } else {
      UncleanPossible(t);
    }
    var rest :| ClosesUncleanly(t, rest);
    UncleanCons(s, step, rest);
  }

  /** Such a state is reached by the call alone. */
  lemma UncleanRunExists() returns (steps: seq<Step>)
    ensures Possible(START, steps) && After(START, steps).client.emitted.Some? && !After(START, steps).client.emitted.value.wasClean
  {
    var call := Step(ClientSide, CallClose(1000, None));
    var t := Next(START, ClientSide, call.action);
    StartInv(ClientSide);
    StepKeepsInv(START, ClientSide, ClientSide, call.action);
    hide Inv;
    assert t.client.closeCalled && !t.client.readyState.Closed? && !t.client.closeFrameSent;
    UncleanPossible(t);
    var rest :| ClosesUncleanly(t, rest);
    hide Enabled;
    hide Next;
    steps := [call] + rest;
    assert steps[1..] == rest;
  }
}
