/** What holds in every run of two endpoints of which at most one calls `close`, and what fails when both do. */
module HandshakeSafety {
  import opened Bytes
  import opened WebSockets
  import opened Handshake
  import Interleaving

  /** A state some run leads to in which only `closer` calls `close`. */
  ghost predicate Reaches(s: System, closer: Side) {
    exists steps :: Possible(START, steps) && OneCloser(closer, steps) && s == After(START, steps)
  }

  lemma ReachedInv(s: System, closer: Side)
    requires Reaches(s, closer)
    ensures Inv(s, closer)
  {
    hide Inv;
    hide Next;
    hide Enabled;
    var steps :| Possible(START, steps) && OneCloser(closer, steps) && s == After(START, steps);
    StartInv(closer);
    RunKeepsInv(START, closer, steps);
  }

  lemma SideFacts(s: System, side: Side, closer: Side)
    requires Inv(s, closer)
    ensures Own(At(s, side)) && Linked(At(s, side), From(s, side), At(s, Other(side)))
    ensures At(s, side).isServer == (side == ServerSide)
  {
    hide Own;
    hide Linked;
  }

  /** Messages and closes arrive in the order of the calls: what a side has received is a beginning of what the other issued. */
  lemma ArrivedInOrder(s: System, closer: Side, side: Side)
    requires Reaches(s, closer)
    ensures Main(At(s, Other(side)).received) <= At(s, side).issued
  {
    ReachedInv(s, closer);
    SideFacts(s, side, closer);
    hide Main;
    var e, o := At(s, side), At(s, Other(side));
    Interleaving.Assoc(Main(o.received), Main(From(s, side)), Unsent(e.outbox, e.closeWritten));
  }

  /** Graceful close: when a side receives the close, it has received every message the other side sent before closing, the
      close being the last thing; nothing of it is unsent or on the way. */
  lemma CloseDeliversEverything(s: System, closer: Side, side: Side)
    requires Reaches(s, closer) && At(s, side).closeFrameReceived
    ensures var e, o := At(s, side), At(s, Other(side));
            && Main(e.received) == o.issued && Last(o.issued).CloseItem? && CloseIsLast(o.issued)
            && Main(From(s, Other(side))) == [] && o.closeWritten
  {
    ReachedInv(s, closer);
    SideFacts(s, side, closer);
    SideFacts(s, Other(side), closer);
    HeardClose(At(s, Other(side)), From(s, Other(side)), At(s, side));
    hide Linked;
  }

  // ---- one step, seen by the side that takes it and by the other

  /** The acting side's next state; `item` is what it receives if it does. */
  function OwnNext(e: Endpoint, a: Action, item: Item): Endpoint {
    match a
    case Send(text, data) => Sending(e, text, data)
    case SendPing(payload) => e.(controls := e.controls + [PingItem(payload)])
    case CallClose(code, reason) => CallingClose(e, code, reason)
    case WriteMain => if e.outbox != [] then Writing(e) else e
    case WriteControl => if e.controls != [] then e.(controls := e.controls[1..]) else e
    case CloseResolves => e.(closeFrameSent := true)
    case Receive => Received(e, item)
    case End => e.(ended := true)
    case SocketCloses => SocketClosing(e)
  }

  function Arriving(s: System, side: Side): Item {
    if From(s, Other(side)) == [] then PingItem([]) else From(s, Other(side))[0]
  }

  lemma NextIsOwn(s: System, side: Side, a: Action)
    requires Enabled(s, side, a)
    ensures At(Next(s, side, a), side) == OwnNext(At(s, side), a, Arriving(s, side))
    ensures At(Next(s, side, a), Other(side)) == At(s, Other(side))
  {
    hide Sending;
    hide CallingClose;
    hide Writing;
    hide Handle;
    hide SocketClosing;
  }

  /** The messages of a run's `send` calls by one side before its own `close`, then that close. */
  function Calls(steps: seq<Step>, side: Side): seq<Item>
    decreases |steps|
  {
    if steps == [] then []
    else if steps[0].side != side then Calls(steps[1..], side)
    else
      match steps[0].action
      case Send(text, data) => [Data(text, data)] + Calls(steps[1..], side)
      case CallClose(code, reason) => [CloseFor(code, reason)]
      case _ => Calls(steps[1..], side)
  }

  /** No call, no close received, no end of the socket. */
  predicate Quiet(e: Endpoint, e': Endpoint) {
    && e'.readyState == e.readyState && e'.emitted == e.emitted && e'.closeCalled == e.closeCalled && e'.issued == e.issued
    && e'.closeCode == e.closeCode && e'.closeReason == e.closeReason && e'.closeFrameReceived == e.closeFrameReceived
    && (e.closeFrameSent ==> e'.closeFrameSent)
  }

  lemma WritingRefused(e: Endpoint)
    requires e.outbox != [] && Throws(e, e.outbox[0])
    ensures Writing(e) == e.(refused := true)
  {
    hide Throws;
  }

  lemma WritingClose(e: Endpoint)
    requires e.outbox != [] && e.outbox[0].CloseItem? && !Throws(e, e.outbox[0])
    ensures Writing(e) == e.(closeWritten := true)
  {
    hide Throws;
  }

  lemma WritingData(e: Endpoint)
    requires e.outbox != [] && !e.outbox[0].CloseItem?
    ensures Writing(e) == e.(outbox := e.outbox[1..])
  {
    assert !Throws(e, e.outbox[0]);
    hide Throws;
  }

  lemma QueuesAreQuiet(e: Endpoint, outbox: seq<Item>, controls: seq<Item>)
    ensures Quiet(e, e.(controls := controls)) && Quiet(e, e.(outbox := outbox))
  {
  }

  lemma FlagsAreQuiet(e: Endpoint)
    ensures Quiet(e, e.(closeWritten := true)) && Quiet(e, e.(refused := true))
  {
  }

  lemma EndsAreQuiet(e: Endpoint)
    ensures Quiet(e, e.(closeFrameSent := true)) && Quiet(e, e.(ended := true))
  {
  }

  lemma WritingIsQuiet(e: Endpoint)
    requires e.outbox != []
    ensures Quiet(e, Writing(e))
  {
    FlagsAreQuiet(e);
    QueuesAreQuiet(e, e.outbox[1..], e.controls);
    if Throws(e, e.outbox[0]) {
      WritingRefused(e);
    } else if e.outbox[0].CloseItem? {
      WritingClose(e);
    } else {
      WritingData(e);
    }
    hide Quiet;
    hide Writing;
    hide Throws;
  }

  lemma SameIsQuiet(e: Endpoint)
    ensures Quiet(e, e)
  {
  }

  lemma OwnIsQuiet(e: Endpoint, a: Action, item: Item)
    requires a.SendPing? || a.WriteMain? || a.WriteControl? || a.CloseResolves? || a.End?
    ensures Quiet(e, OwnNext(e, a, item))
  {
    hide Quiet;
    hide Writing;
    SameIsQuiet(e);
    EndsAreQuiet(e);
    match a
    case SendPing(payload) => QueuesAreQuiet(e, e.outbox, e.controls + [PingItem(payload)]);
    case WriteMain =>
      if e.outbox != [] {
        WritingIsQuiet(e);
      }
    case WriteControl =>
      if e.controls != [] {
        QueuesAreQuiet(e, e.outbox, e.controls[1..]);
      }
    case CloseResolves =>
    case End =>
  }

  lemma CallingIssues(e: Endpoint, code: nat, reason: Option<seq<byte>>)
    ensures var e' := CallingClose(e, code, reason);
            e'.closeCalled && e'.issued == if e.closeCalled then e.issued else e.issued + [CloseFor(code, reason)]
  {
    hide CloseFor;
  }

  /** Of all that a side does, sending and closing alone are calls. */
  lemma OwnIssues(e: Endpoint, a: Action, item: Item)
    requires !a.Receive?
    ensures var e' := OwnNext(e, a, item);
            if e.closeCalled || !(a.Send? || a.CallClose?) then e'.issued == e.issued && e'.closeCalled == e.closeCalled
            else if a.Send? then e'.issued == e.issued + [Data(a.text, a.data)] && !e'.closeCalled
            else e'.issued == e.issued + [CloseFor(a.code, a.reason)] && e'.closeCalled
  {
    hide CloseFor;
    match a
    case Send(_, _) => hide CallingClose;
    case CallClose(code, reason) =>
      CallingIssues(e, code, reason);
      hide CallingClose;
    case SocketCloses =>
    case _ =>
      OwnIsQuiet(e, a, item);
      hide OwnNext;
  }

  lemma StepIssues(s: System, closer: Side, step: Step)
    requires Inv(s, closer) && Enabled(s, step.side, step.action) && (step.action.CallClose? ==> step.side == closer)
    ensures var e, e', a := At(s, closer), At(Next(s, step.side, step.action), closer), step.action;
            if e.closeCalled || step.side != closer || !(a.Send? || a.CallClose?)
              then e'.issued == e.issued && e'.closeCalled == e.closeCalled
            else if a.Send? then e'.issued == e.issued + [Data(a.text, a.data)] && !e'.closeCalled
            else e'.issued == e.issued + [CloseFor(a.code, a.reason)] && e'.closeCalled
  {
    NextIsOwn(s, step.side, step.action);
    if step.side == closer {
      if step.action.Receive? {
        ReceiveIssues(s, closer);
      } else {
        OwnIssues(At(s, closer), step.action, Arriving(s, closer));
      }
    }
    hide CloseFor;
    hide Inv;
    hide Next;
    hide OwnNext;
    hide Enabled;
  }

  /** The closer echoes nothing. */
  lemma ReceiveIssues(s: System, closer: Side)
    requires Inv(s, closer) && Enabled(s, closer, Receive)
    ensures var e, e' := At(s, closer), At(Next(s, closer, Receive), closer);
            e'.issued == e.issued && e'.closeCalled == e.closeCalled
  {
    var items := From(s, Other(closer));
    NextReceives(s, closer);
    if items[0].CloseItem? {
      CloseArrives(s, closer, closer);
    } else {
      ControlsLeaveCloses(At(s, closer), items[0]);
    }
    hide Inv;
    hide Next;
  }

  lemma {:induction false} IssuedIsCalled(s: System, closer: Side, steps: seq<Step>)
    requires Inv(s, closer) && Possible(s, steps) && OneCloser(closer, steps)
    ensures At(After(s, steps), closer).issued
         == At(s, closer).issued + if At(s, closer).closeCalled then [] else Calls(steps, closer)
    decreases |steps|
  {
    hide Inv;
    hide Enabled;
    hide Next;
    hide CloseFor;
    var issued := At(s, closer).issued;
    assert issued + [] == issued;
    if steps != [] {
      var t := Next(s, steps[0].side, steps[0].action);
      StepKeepsInv(s, closer, steps[0].side, steps[0].action);
      StepIssues(s, closer, steps[0]);
      IssuedIsCalled(t, closer, steps[1..]);
      assert At(t, closer).issued + [] == At(t, closer).issued;
      if !At(s, closer).closeCalled && steps[0].side == closer && steps[0].action.Send? {
        Interleaving.Assoc(issued, [Data(steps[0].action.text, steps[0].action.data)], Calls(steps[1..], closer));
      }
    }
  }

  /** In terms of the calls: once the peer has received the close, it has received exactly the closer's messages sent before
      `close`, then the close. */
  lemma CloserIsHeard(closer: Side, steps: seq<Step>)
    requires Possible(START, steps) && OneCloser(closer, steps)
    requires At(After(START, steps), Other(closer)).closeFrameReceived
    ensures Main(At(After(START, steps), Other(closer)).received) == Calls(steps, closer)
  {
    StartInv(closer);
    IssuedIsCalled(START, closer, steps);
    assert [] + Calls(steps, closer) == Calls(steps, closer);
    assert Reaches(After(START, steps), closer);
    CloseDeliversEverything(After(START, steps), closer, Other(closer));
    hide Main;
    hide Next;
    hide Enabled;
  }

  /** The server ends the stream only when both closes are on the wire, with everything from the client received; a closed
      client has received everything from the server. */
  lemma EndIsGraceful(s: System, closer: Side)
    requires Reaches(s, closer)
    ensures s.server.ended ==> s.server.closeWritten && s.client.closeWritten && Main(s.server.received) == s.client.issued
    ensures s.client.readyState.Closed? ==>
              s.server.ended && s.client.closeFrameReceived && Main(s.client.received) == s.server.issued
  {
    ReachedInv(s, closer);
    SideFacts(s, ServerSide, closer);
    SideFacts(s, ClientSide, closer);
    if s.server.ended {
      CloseDeliversEverything(s, closer, ServerSide);
    }
    if s.client.readyState.Closed? {
      ClosedHeard(s.server, s.client);
    }
    hide Linked;
  }

  lemma ClosedHeard(s: Endpoint, r: Endpoint)
    requires Own(s) && Own(r) && Linked(s, [], r) && s.closeWritten
    ensures Main(r.received) == s.issued && r.closeFrameReceived
  {
    assert Main([]) == [];
    assert Main(r.received) + [] + [] == Main(r.received);
    assert s.closeCalled by { WrittenIsCalled(s); }
    assert HasClose(s.issued) by { assert s.issued[|s.issued| - 1].CloseItem?; }
    HasCloseMain(r.received);
    hide Main;
  }

  /** Close outcome: no reader rejects a close, no writer throws at one; on the wire of either side a close is followed by no
      message and no second close; and whoever has received one reports the code and reason of the closer's call. */
  lemma ClosesAgree(s: System, closer: Side, side: Side)
    requires Reaches(s, closer)
    ensures !At(s, side).failed && !At(s, side).refused
    ensures CloseIsLast(Main(At(s, Other(side)).received) + Main(From(s, side)))
    ensures At(s, side).closeFrameReceived ==>
              At(s, closer).closeCalled && Reports(At(s, side), Last(At(s, closer).issued))
  {
    ReachedInv(s, closer);
    SideFacts(s, side, closer);
    var e, o := At(s, side), At(s, Other(side));
    var written := Main(o.received) + Main(From(s, side));
    assert written <= e.issued;
    assert forall i :: 0 <= i < |written| ==> written[i] == e.issued[i];
    hide Main;
  }

  // ---- the close event

  predicate Emitted(e: Endpoint) {
    && (e.emitted.Some? <==> e.readyState.Closed?)
    && (e.emitted.Some? ==>
          && e.emitted.value.code == (if e.closeCode.Some? && e.closeCode.value != 0 then e.closeCode.value else 1006)
          && e.emitted.value.reason == e.closeReason
          && (e.emitted.value.wasClean ==> e.closeFrameSent && e.closeFrameReceived))
  }

  lemma CallEmits(e: Endpoint, code: nat, reason: Option<seq<byte>>)
    requires Emitted(e) && (e.readyState.Closed? ==> e.closeCalled)
    ensures Emitted(CallingClose(e, code, reason))
  {
    hide CloseFor;
  }

  lemma HandlingEmits(e: Endpoint, item: Item)
    requires Emitted(e) && !e.readyState.Closed?
    ensures Emitted(Received(e, item))
  {
    ReceivedStaysUp(e, item);
    ReceivedEmitsNothing(e, item);
    hide Received;
  }

  lemma ReceivedEmitsNothing(e: Endpoint, item: Item)
    ensures Received(e, item).emitted == e.emitted
  {
    var e1 := e.(received := e.received + [item]);
    if item.CloseItem? {
      ReceivingEmitsNothing(e1, item.code, item.reason);
    }
    hide CodePasses;
    hide ReceivingClose;
  }

  lemma ReceivingEmitsNothing(e: Endpoint, code: nat, reason: Option<seq<byte>>)
    ensures ReceivingClose(e, code, reason).emitted == e.emitted
  {
    hide CloseFor;
  }

  lemma SocketEmits(e: Endpoint)
    ensures Emitted(SocketClosing(e))
  {
  }

  lemma SendingEmits(e: Endpoint, text: bool, data: seq<byte>)
    requires Emitted(e)
    ensures Emitted(Sending(e, text, data))
  {
  }

  lemma OwnEmits(e: Endpoint, a: Action, item: Item)
    requires Emitted(e) && (e.readyState.Closed? ==> e.closeCalled && !a.Receive?)
    ensures Emitted(OwnNext(e, a, item))
  {
    hide Sending;
    hide CallingClose;
    hide Received;
    hide SocketClosing;
    hide Writing;
    match a
    case Send(text, data) => SendingEmits(e, text, data);
    case CallClose(code, reason) => CallEmits(e, code, reason);
    case Receive => HandlingEmits(e, item);
    case SocketCloses => SocketEmits(e);
    case _ =>
      OwnIsQuiet(e, a, item);
      hide OwnNext;
  }

  lemma StepEmits(s: System, closer: Side, step: Step, side: Side)
    requires Inv(s, closer) && Enabled(s, step.side, step.action) && Emitted(At(s, side))
    ensures Emitted(At(Next(s, step.side, step.action), side))
  {
    NextIsOwn(s, step.side, step.action);
    CalledWhenClosed(s);
    if step.side == side {
      OwnEmits(At(s, side), step.action, Arriving(s, side));
    }
    hide Inv;
    hide Emitted;
    hide Next;
    hide OwnNext;
  }

  lemma {:induction false} RunEmits(s: System, closer: Side, steps: seq<Step>, side: Side)
    requires Inv(s, closer) && Possible(s, steps) && OneCloser(closer, steps) && Emitted(At(s, side))
    ensures Emitted(At(After(s, steps), side))
    decreases |steps|
  {
    hide Inv;
    hide Enabled;
    hide Next;
    hide Emitted;
    if steps != [] {
      StepKeepsInv(s, closer, steps[0].side, steps[0].action);
      StepEmits(s, closer, steps[0], side);
      RunEmits(Next(s, steps[0].side, steps[0].action), closer, steps[1..], side);
    }
  }

  /** The close event of either side carries the code and reason of the closer's call, and `wasClean` means that this side
      has both sent and received a Close frame. */
  lemma EventsAgree(closer: Side, steps: seq<Step>, side: Side)
    requires Possible(START, steps) && OneCloser(closer, steps)
    ensures var s := After(START, steps);
            var e := At(s, side);
            e.emitted.Some? ==>
              && At(s, closer).closeCalled
              && var close := Last(At(s, closer).issued);
              && close.CloseItem? && e.emitted.value.code == close.code && e.emitted.value.reason == close.reason
              && (e.emitted.value.wasClean ==> e.closeWritten && HasClose(e.received))
  {
    var s := After(START, steps);
    var e := At(s, side);
    StartInv(closer);
    RunEmits(START, closer, steps, side);
    assert Reaches(s, closer);
    if e.emitted.Some? {
      ReachedInv(s, closer);
      SideFacts(s, side, closer);
      EndIsGraceful(s, closer);
      ClosesAgree(s, closer, side);
      LegalIsNotZero(s, closer);
    }
    hide Next;
    hide Enabled;
    hide Main;
  }

  lemma LegalIsNotZero(s: System, closer: Side)
    requires Inv(s, closer) && At(s, closer).closeCalled
    ensures Last(At(s, closer).issued).CloseItem? && Last(At(s, closer).issued).code != 0
  {
    hide Linkages;
    hide Ending;
  }

  // ---- pings

  /** Pongs answer the pings received before a close, in order and with their payloads; all of them once the frame mutex is
      free. */
  lemma PingsAreAnswered(s: System, closer: Side, side: Side)
    requires Reaches(s, closer)
    ensures var e, o := At(s, side), At(s, Other(side));
            var written := Pongs(o.received) + Pongs(From(s, side));
            && written <= Answers(e.received)
            && (e.controls == [] ==> written == Answers(e.received))
  {
    ReachedInv(s, closer);
    SideFacts(s, side, closer);
    assert Pongs([]) == [];
    hide Answers;
  }

  // ---- the ready state

  lemma ReceivingNeverOpens(e: Endpoint, item: Item)
    requires !e.readyState.Open?
    ensures !Received(e, item).readyState.Open?
  {
    var e1 := e.(received := e.received + [item]);
    if item.CloseItem? {
      ClosingNeverOpens(e1, item.code, item.reason);
    }
    hide CodePasses;
    hide ReceivingClose;
  }

  lemma ClosingNeverOpens(e: Endpoint, code: nat, reason: Option<seq<byte>>)
    requires !e.readyState.Open?
    ensures !ReceivingClose(e, code, reason).readyState.Open? && !CallingClose(e, code, reason).readyState.Open?
  {
    hide CloseFor;
  }

  lemma SendingNeverOpens(e: Endpoint, text: bool, data: seq<byte>)
    ensures Sending(e, text, data).readyState == e.readyState
  {
  }

  lemma OwnNeverOpens(e: Endpoint, a: Action, item: Item)
    requires !e.readyState.Open?
    ensures !OwnNext(e, a, item).readyState.Open?
  {
    hide Sending;
    hide CallingClose;
    hide Received;
    hide Writing;
    match a
    case Send(text, data) => SendingNeverOpens(e, text, data);
    case CallClose(code, reason) => ClosingNeverOpens(e, code, reason);
    case Receive => ReceivingNeverOpens(e, item);
    case SocketCloses =>
    case _ =>
      OwnIsQuiet(e, a, item);
      hide OwnNext;
  }

  lemma StepNeverReopens(s: System, step: Step, side: Side)
    requires Enabled(s, step.side, step.action) && !At(s, side).readyState.Open?
    ensures !At(Next(s, step.side, step.action), side).readyState.Open?
  {
    NextIsOwn(s, step.side, step.action);
    if step.side == side {
      OwnNeverOpens(At(s, side), step.action, Arriving(s, side));
    }
    hide Next;
    hide OwnNext;
    hide Enabled;
  }

  /** In any run whatever: an endpoint that has left OPEN never returns to it. */
  lemma {:induction false} NeverReopens(s: System, steps: seq<Step>, side: Side)
    requires Possible(s, steps) && !At(s, side).readyState.Open?
    ensures !At(After(s, steps), side).readyState.Open?
    decreases |steps|
  {
    hide Enabled;
    hide Next;
    if steps != [] {
      StepNeverReopens(s, steps[0], side);
      NeverReopens(Next(s, steps[0].side, steps[0].action), steps[1..], side);
    }
  }

  // ---- the checks of close codes

  /** The writer checks the codes of its own side's calls until a Close is received, the reader those it receives until the
      server calls `close` or echoes one; a client's reader always does. */
  predicate ChecksFollow(e: Endpoint) {
    (e.writerChecks <==> !e.closeFrameReceived) && (e.readerChecks <==> !(e.isServer && e.closeCalled))
  }

  /** Nothing the checks depend on changes. */
  predicate ChecksSame(e: Endpoint, e': Endpoint) {
    && e'.isServer == e.isServer && e'.closeCalled == e.closeCalled && e'.closeFrameReceived == e.closeFrameReceived
    && e'.writerChecks == e.writerChecks && e'.readerChecks == e.readerChecks
  }

  lemma SameChecksFollow(e: Endpoint, e': Endpoint)
    requires ChecksSame(e, e') && ChecksFollow(e)
    ensures ChecksFollow(e')
  {
  }

  lemma QueuesSameChecks(e: Endpoint, outbox: seq<Item>, controls: seq<Item>)
    ensures ChecksSame(e, e.(outbox := outbox)) && ChecksSame(e, e.(controls := controls))
  {
  }

  lemma FlagsSameChecks(e: Endpoint)
    ensures ChecksSame(e, e.(closeFrameSent := true)) && ChecksSame(e, e.(ended := true)) && ChecksSame(e, e)
  {
  }

  lemma FailingSameChecks(e: Endpoint, received: seq<Item>)
    ensures ChecksSame(e, e.(failed := true)) && ChecksSame(e, e.(received := received))
  {
  }

  lemma WrittenSameChecks(e: Endpoint)
    ensures ChecksSame(e, e.(closeWritten := true)) && ChecksSame(e, e.(refused := true))
  {
  }

  lemma SocketSameChecks(e: Endpoint)
    ensures ChecksSame(e, SocketClosing(e))
  {
  }

  lemma SendingSameChecks(e: Endpoint, text: bool, data: seq<byte>)
    ensures ChecksSame(e, Sending(e, text, data))
  {
  }

  lemma WritingSameChecks(e: Endpoint)
    requires e.outbox != []
    ensures ChecksSame(e, Writing(e))
  {
    hide ChecksSame;
    hide Writing;
    hide Throws;
    WrittenSameChecks(e);
    if Throws(e, e.outbox[0]) {
      WritingRefused(e);
    } else if e.outbox[0].CloseItem? {
      WritingClose(e);
    } else {
      WritingData(e);
      QueuesSameChecks(e, e.outbox[1..], e.controls);
    }
  }

  lemma CallChecks(e: Endpoint, code: nat, reason: Option<seq<byte>>)
    requires ChecksFollow(e)
    ensures ChecksFollow(CallingClose(e, code, reason))
  {
    CloseIsQueued(e, code, reason);
    hide CallingClose;
  }

  lemma CloseChecks(e: Endpoint, code: nat, reason: Option<seq<byte>>)
    requires ChecksFollow(e)
    ensures ChecksFollow(ReceivingClose(e, code, reason))
  {
    CloseIsEchoed(e, code, reason);
    StaysServer(e, code, reason);
    hide ReceivingClose;
  }

  lemma StaysServer(e: Endpoint, code: nat, reason: Option<seq<byte>>)
    ensures ReceivingClose(e, code, reason).isServer == e.isServer
  {
    hide CloseFor;
  }

  lemma ReceivedChecks(e: Endpoint, item: Item)
    requires ChecksFollow(e)
    ensures ChecksFollow(Received(e, item))
  {
    var e1 := e.(received := e.received + [item]);
    FailingSameChecks(e, e.received + [item]);
    SameChecksFollow(e, e1);
    FailingSameChecks(e1, []);
    SameChecksFollow(e1, e1.(failed := true));
    hide ChecksFollow;
    hide ChecksSame;
    match item
    case Data(_, _) =>
    case PongItem(_) =>
    case PingItem(payload) => PingChecks(e1, payload);
    case CloseItem(code, reason) =>
      CloseChecks(e1, code, reason);
      hide ReceivingClose;
      hide CodePasses;
  }

  lemma PingChecks(e: Endpoint, payload: seq<byte>)
    requires ChecksFollow(e)
    ensures ChecksFollow(ReceivingPing(e, payload))
  {
    QueuesSameChecks(e, e.outbox, e.controls + [PongItem(payload)]);
    SameChecksFollow(e, e.(controls := e.controls + [PongItem(payload)]));
    hide ChecksFollow;
    hide ChecksSame;
  }

  lemma OwnChecks(e: Endpoint, a: Action, item: Item)
    requires ChecksFollow(e)
    ensures ChecksFollow(OwnNext(e, a, item))
  {
    hide ChecksFollow;
    hide ChecksSame;
    hide Sending;
    hide CallingClose;
    hide Received;
    hide SocketClosing;
    hide Writing;
    FlagsSameChecks(e);
    match a
    case CallClose(code, reason) => CallChecks(e, code, reason);
    case Receive => ReceivedChecks(e, item);
    case Send(text, data) =>
      SendingSameChecks(e, text, data);
      SameChecksFollow(e, Sending(e, text, data));
    case SendPing(payload) => QueuedChecks(e, e.controls + [PingItem(payload)]);
    case WriteMain =>
      if e.outbox != [] {
        WritingSameChecks(e);
        SameChecksFollow(e, Writing(e));
      }
    case WriteControl =>
      if e.controls != [] {
        QueuedChecks(e, e.controls[1..]);
      }
    case CloseResolves => SameChecksFollow(e, e.(closeFrameSent := true));
    case End => SameChecksFollow(e, e.(ended := true));
    case SocketCloses =>
      SocketSameChecks(e);
      SameChecksFollow(e, SocketClosing(e));
  }

  lemma QueuedChecks(e: Endpoint, controls: seq<Item>)
    requires ChecksFollow(e)
    ensures ChecksFollow(e.(controls := controls))
  {
    QueuesSameChecks(e, e.outbox, controls);
    SameChecksFollow(e, e.(controls := controls));
    hide ChecksFollow;
    hide ChecksSame;
  }

  lemma {:induction false} RunChecks(s: System, steps: seq<Step>, side: Side)
    requires Possible(s, steps) && ChecksFollow(At(s, side))
    ensures ChecksFollow(At(After(s, steps), side))
    decreases |steps|
  {
    hide Enabled;
    hide Next;
    hide ChecksFollow;
    if steps != [] {
      var step := steps[0];
      NextIsOwn(s, step.side, step.action);
      if step.side == side {
        OwnChecks(At(s, side), step.action, Arriving(s, side));
      }
      hide OwnNext;
      RunChecks(Next(s, step.side, step.action), steps[1..], side);
    }
  }

  /** In every run, whoever closes. */
  lemma ChecksAreKept(steps: seq<Step>, side: Side)
    requires Possible(START, steps)
    ensures ChecksFollow(At(After(START, steps), side))
  {
    RunChecks(START, steps, side);
    hide Possible;
    hide After;
  }
}
