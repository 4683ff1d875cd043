/** Pings between two endpoints: they arrive in the order of their calls, with their payloads. */
module HandshakePings {
  import opened Bytes
  import opened WebSockets
  import opened Handshake
  import opened HandshakeSafety
  import Interleaving

  function Pings(items: seq<Item>): seq<Item> {
    if items == [] then [] else (if items[0].PingItem? then [items[0]] else []) + Pings(items[1..])
  }

  /** The pings a side asks for in a run. */
  function PingCalls(steps: seq<Step>, side: Side): seq<Item> {
    if steps == [] then []
    else
      (if steps[0].side == side && steps[0].action.SendPing? then [PingItem(steps[0].action.payload)] else [])
      + PingCalls(steps[1..], side)
  }

  lemma {:induction false} PingsConcat(a: seq<Item>, b: seq<Item>)
    ensures Pings(a + b) == Pings(a) + Pings(b)
  {
    if a == [] {
      assert a + b == b;
    } else {
      assert (a + b)[1..] == a[1..] + b && (a + b)[0] == a[0];
      PingsConcat(a[1..], b);
      Interleaving.Assoc(if a[0].PingItem? then [a[0]] else [], Pings(a[1..]), Pings(b));
    }
  }

  ghost predicate PingLink(received: seq<Item>, channel: seq<Item>, controls: seq<Item>, calls: seq<Item>) {
    Pings(received) + Pings(channel) + Pings(controls) == calls
  }

  lemma PingOf(item: Item)
    ensures Pings([item]) == if item.PingItem? then [item] else []
  {
    assert [item][1..] == [];
  }

  lemma QueuedPing(received: seq<Item>, channel: seq<Item>, controls: seq<Item>, calls: seq<Item>, item: Item)
    requires PingLink(received, channel, controls, calls)
    ensures PingLink(received, channel, controls + [item], calls + if item.PingItem? then [item] else [])
  {
    PingsConcat(controls, [item]);
    PingOf(item);
    hide Pings;
    Interleaving.Assoc(Pings(received) + Pings(channel), Pings(controls), if item.PingItem? then [item] else []);
  }

  lemma WrittenPing(received: seq<Item>, channel: seq<Item>, controls: seq<Item>, calls: seq<Item>)
    requires controls != [] && PingLink(received, channel, controls, calls)
    ensures PingLink(received, channel + [controls[0]], controls[1..], calls)
  {
    assert controls == [controls[0]] + controls[1..];
    PingsConcat([controls[0]], controls[1..]);
    PingsConcat(channel, [controls[0]]);
    hide Pings;
    Regroup(Pings(received), Pings(channel), Pings([controls[0]]), Pings(controls[1..]));
  }

  lemma PassedMain(received: seq<Item>, channel: seq<Item>, controls: seq<Item>, calls: seq<Item>, item: Item)
    requires !item.PingItem? && PingLink(received, channel, controls, calls)
    ensures PingLink(received, channel + [item], controls, calls)
  {
    PingsConcat(channel, [item]);
    PingOf(item);
    hide Pings;
    assert Pings(channel) + [] == Pings(channel);
  }

  lemma ReceivedPing(received: seq<Item>, channel: seq<Item>, controls: seq<Item>, calls: seq<Item>)
    requires channel != [] && PingLink(received, channel, controls, calls)
    ensures PingLink(received + [channel[0]], channel[1..], controls, calls)
  {
    assert channel == [channel[0]] + channel[1..];
    PingsConcat([channel[0]], channel[1..]);
    PingsConcat(received, [channel[0]]);
    hide Pings;
    Interleaving.Assoc(Pings(received), Pings([channel[0]]), Pings(channel[1..]));
  }

  /** What a side does to its control frames. */
  lemma OwnControls(e: Endpoint, a: Action, item: Item)
    ensures var c := OwnNext(e, a, item).controls;
            match a
            case SendPing(payload) => c == e.controls + [PingItem(payload)]
            case WriteControl => e.controls != [] ==> c == e.controls[1..]
            case Receive => c == e.controls || exists pong: Item :: pong.PongItem? && c == e.controls + [pong]
            case _ => c == e.controls
  {
    hide Sending;
    hide CallingClose;
    hide Writing;
    hide Received;
    hide SocketClosing;
    match a
    case Send(text, data) => SendingControls(e, text, data);
    case CallClose(code, reason) => CloseIsQueued(e, code, reason);
    case WriteMain =>
      if e.outbox != [] {
        WritingControls(e);
      }
    case Receive => ReceivedControls(e, item);
    case SocketCloses => SocketControls(e);
    case _ =>
  }

  lemma SendingControls(e: Endpoint, text: bool, data: seq<byte>)
    ensures Sending(e, text, data).controls == e.controls && Sending(e, text, data).received == e.received
  {
  }

  lemma SocketControls(e: Endpoint)
    ensures SocketClosing(e).controls == e.controls && SocketClosing(e).received == e.received
  {
  }

  lemma FlaggedControls(e: Endpoint)
    ensures e.(closeWritten := true).controls == e.controls && e.(refused := true).controls == e.controls
    ensures e.(closeWritten := true).received == e.received && e.(refused := true).received == e.received
  {
  }

  lemma WritingControls(e: Endpoint)
    requires e.outbox != []
    ensures Writing(e).controls == e.controls && Writing(e).received == e.received
  {
    hide Writing;
    hide Throws;
    FlaggedControls(e);
    if Throws(e, e.outbox[0]) {
      WritingRefused(e);
    } else if e.outbox[0].CloseItem? {
      WritingClose(e);
    } else {
      WritingData(e);
      ShiftedControls(e, e.outbox[1..]);
    }
  }

  lemma ShiftedControls(e: Endpoint, outbox: seq<Item>)
    ensures e.(outbox := outbox).controls == e.controls && e.(outbox := outbox).received == e.received
  {
  }

  lemma ClosingControls(e: Endpoint, code: nat, reason: Option<seq<byte>>)
    ensures ReceivingClose(e, code, reason).controls == e.controls && ReceivingClose(e, code, reason).received == e.received
  {
    hide CloseFor;
  }

  lemma PingControls(e: Endpoint, payload: seq<byte>)
    ensures var r := ReceivingPing(e, payload);
            (r.controls == e.controls || r.controls == e.controls + [PongItem(payload)]) && r.received == e.received
  {
  }

  lemma FailedControls(e: Endpoint)
    ensures e.(failed := true).controls == e.controls && e.(failed := true).received == e.received
  {
  }

  lemma HandledControls(e: Endpoint, item: Item)
    ensures var c := Handle(e, item).controls;
            c == e.controls || exists pong: Item :: pong.PongItem? && c == e.controls + [pong]
    ensures Handle(e, item).received == e.received
  {
    hide ReceivingPing;
    hide ReceivingClose;
    hide CodePasses;
    match item
    case Data(_, _) =>
    case PongItem(_) =>
    case PingItem(payload) =>
      PingControls(e, payload);
      assert PongItem(payload).PongItem?;
    case CloseItem(code, reason) =>
      ClosingControls(e, code, reason);
      FailedControls(e);
  }

  lemma ReceivedControls(e: Endpoint, item: Item)
    ensures var c := Received(e, item).controls;
            c == e.controls || exists pong: Item :: pong.PongItem? && c == e.controls + [pong]
    ensures Received(e, item).received == e.received + [item]
  {
    HandledControls(e.(received := e.received + [item]), item);
    hide Handle;
  }

  lemma ReceivedLinks(s: System, side: Side, calls: seq<Item>)
    requires Enabled(s, side, Receive)
    requires PingLink(At(s, Other(side)).received, From(s, side), At(s, side).controls, calls)
    ensures var t := Next(s, side, Receive);
            PingLink(At(t, Other(side)).received, From(t, side), At(t, side).controls, calls)
  {
    var e, item := At(s, side), From(s, Other(side))[0];
    NextReceives(s, side);
    ReceivedControls(e, item);
    hide Next;
    hide Received;
    var c := Received(e, item).controls;
    if c != e.controls {
      var pong: Item :| pong.PongItem? && c == e.controls + [pong];
      QueuedPing(At(s, Other(side)).received, From(s, side), e.controls, calls, pong);
      assert calls + [] == calls;
    }
    hide PingLink;
  }

  lemma HeardLinks(s: System, side: Side, calls: seq<Item>)
    requires Enabled(s, Other(side), Receive)
    requires PingLink(At(s, Other(side)).received, From(s, side), At(s, side).controls, calls)
    ensures var t := Next(s, Other(side), Receive);
            PingLink(At(t, Other(side)).received, From(t, side), At(t, side).controls, calls)
  {
    var o := At(s, Other(side));
    NextReceives(s, Other(side));
    ReceivedControls(o, From(s, side)[0]);
    ReceivedPing(o.received, From(s, side), At(s, side).controls, calls);
    hide Next;
    hide Received;
    hide PingLink;
  }

  lemma NoPingInFront(e: Endpoint)
    requires Own(e) && e.outbox != []
    ensures !e.outbox[0].PingItem?
  {
  }

  lemma WrittenLinks(s: System, closer: Side, side: Side, calls: seq<Item>)
    requires Inv(s, closer) && Enabled(s, side, WriteMain)
    requires PingLink(At(s, Other(side)).received, From(s, side), At(s, side).controls, calls)
    ensures var t := Next(s, side, WriteMain);
            PingLink(At(t, Other(side)).received, From(t, side), At(t, side).controls, calls)
  {
    var e := At(s, side);
    CloseMayBeWritten(s, closer, side);
    SideFacts(s, side, closer);
    hide Inv;
    hide Own;
    hide Linked;
    NoPingInFront(e);
    NextWrites(s, side);
    WritingControls(e);
    PassedMain(At(s, Other(side)).received, From(s, side), e.controls, calls, e.outbox[0]);
    hide Next;
    hide Writing;
    hide PingLink;
  }

  lemma OwnReceived(e: Endpoint, a: Action, item: Item)
    requires !a.Receive?
    ensures OwnNext(e, a, item).received == e.received
  {
    hide Sending;
    hide CallingClose;
    hide Writing;
    hide SocketClosing;
    match a
    case Send(text, data) => SendingControls(e, text, data);
    case CallClose(code, reason) => CallingReceived(e, code, reason);
    case WriteMain =>
      if e.outbox != [] {
        WritingControls(e);
      }
    case SocketCloses => SocketControls(e);
    case _ =>
  }

  lemma CallingReceived(e: Endpoint, code: nat, reason: Option<seq<byte>>)
    ensures CallingClose(e, code, reason).received == e.received
  {
    hide CloseFor;
  }

  /** A step that neither writes nor receives leaves the channels as they are. */
  lemma ChannelsStay(s: System, side: Side, a: Action)
    requires Enabled(s, side, a) && !a.WriteMain? && !a.WriteControl? && !a.Receive?
    ensures Next(s, side, a).toServer == s.toServer && Next(s, side, a).toClient == s.toClient
  {
    hide Sending;
    hide CallingClose;
    hide SocketClosing;
  }

  lemma WritesOneChannel(s: System, side: Side, a: Action)
    requires Enabled(s, side, a) && (a.WriteMain? || a.WriteControl?)
    ensures From(Next(s, side, a), Other(side)) == From(s, Other(side))
  {
    hide Writing;
  }

  /** The pings from `side` are linked: received, on their way, queued. */
  ghost predicate Linking(s: System, side: Side, calls: seq<Item>) {
    PingLink(At(s, Other(side)).received, From(s, side), At(s, side).controls, calls)
  }

  lemma OtherLinks(s: System, side: Side, a: Action, calls: seq<Item>)
    requires Enabled(s, Other(side), a) && Linking(s, side, calls)
    ensures Linking(Next(s, Other(side), a), side, calls)
  {
    hide PingLink;
    if a.Receive? {
      HeardLinks(s, side, calls);
    } else {
      NextIsOwn(s, Other(side), a);
      OwnReceived(At(s, Other(side)), a, Arriving(s, Other(side)));
      if a.WriteMain? || a.WriteControl? {
        WritesOneChannel(s, Other(side), a);
      } else {
        ChannelsStay(s, Other(side), a);
      }
    }
    hide Enabled;
    hide Next;
    hide OwnNext;
  }

  lemma WrittenControlLinks(s: System, side: Side, calls: seq<Item>)
    requires Enabled(s, side, WriteControl) && Linking(s, side, calls)
    ensures Linking(Next(s, side, WriteControl), side, calls)
  {
    NextWritesControl(s, side);
    hide Next;
    WrittenPing(At(s, Other(side)).received, From(s, side), At(s, side).controls, calls);
    hide PingLink;
  }

  function Asked(a: Action): seq<Item> {
    if a.SendPing? then [PingItem(a.payload)] else []
  }

  lemma OwnLinks(s: System, closer: Side, side: Side, a: Action, calls: seq<Item>)
    requires Inv(s, closer) && Enabled(s, side, a) && Linking(s, side, calls)
    ensures Linking(Next(s, side, a), side, calls + Asked(a))
  {
    hide Inv;
    hide PingLink;
    assert calls + [] == calls;
    if a.Receive? {
      ReceivedLinks(s, side, calls);
    } else if a.WriteMain? {
      WrittenLinks(s, closer, side, calls);
    } else if a.WriteControl? {
      WrittenControlLinks(s, side, calls);
    } else {
      NextIsOwn(s, side, a);
      OwnControls(At(s, side), a, Arriving(s, side));
      ChannelsStay(s, side, a);
      if a.SendPing? {
        QueuedPing(At(s, Other(side)).received, From(s, side), At(s, side).controls, calls, PingItem(a.payload));
      }
    }
    hide Enabled;
    hide Next;
    hide OwnNext;
  }

  lemma {:induction false} RunLinks(s: System, closer: Side, steps: seq<Step>, side: Side, calls: seq<Item>)
    requires Inv(s, closer) && Possible(s, steps) && OneCloser(closer, steps) && Linking(s, side, calls)
    ensures Linking(After(s, steps), side, calls + PingCalls(steps, side))
    decreases |steps|
  {
    hide Inv;
    hide Enabled;
    hide Next;
    hide Linking;
    assert calls + [] == calls;
    if steps != [] {
      var step, t := steps[0], Next(s, steps[0].side, steps[0].action);
      StepKeepsInv(s, closer, step.side, step.action);
      if step.side == side {
        OwnLinks(s, closer, side, step.action, calls);
        RunLinks(t, closer, steps[1..], side, calls + Asked(step.action));
        Interleaving.Assoc(calls, Asked(step.action), PingCalls(steps[1..], side));
      } else {
        assert step.side == Other(side);
        OtherLinks(s, side, step.action, calls);
        RunLinks(t, closer, steps[1..], side, calls);
        assert PingCalls(steps, side) == [] + PingCalls(steps[1..], side) == PingCalls(steps[1..], side);
      }
    }
  }

  /** The pings received, on their way and still queued are exactly those called for, in order and with their payloads. */
  lemma PingsArrive(closer: Side, steps: seq<Step>, side: Side)
    requires Possible(START, steps) && OneCloser(closer, steps)
    ensures var s := After(START, steps);
            Pings(At(s, Other(side)).received) + Pings(From(s, side)) + Pings(At(s, side).controls) == PingCalls(steps, side)
  {
    StartInv(closer);
    assert Linking(START, side, []);
    RunLinks(START, closer, steps, side, []);
    assert [] + PingCalls(steps, side) == PingCalls(steps, side);
    hide After;
    hide Possible;
    hide Pings;
  }

  // ---- the codes that pass

  /** A checking reader lets through what its own side's peer may send, number by number, and fails at anything else. */
  lemma CodesPass(e: Endpoint, code: nat, reason: Option<seq<byte>>)
    ensures CodePasses(e, code)
       <==> || !e.readerChecks || 1000 <= code <= 1003 || 1007 <= code <= 1009 || 3000 <= code <= 4999
            || (if e.isServer then code == 1010 else 1011 <= code <= 1014)
    ensures !CodePasses(e, code) ==> Handle(e, CloseItem(code, reason)) == e.(failed := true)
  {
    hide ReceivingClose;
  }

  /** A checking writer throws at what its own side may not send. */
  lemma CodesThrow(e: Endpoint, code: nat, reason: Option<seq<byte>>)
    ensures Throws(e, CloseItem(code, reason))
       <==> e.writerChecks && !(3000 <= code <= 4999)
            && if e.isServer then !(1000 <= code <= 1003 || 1007 <= code <= 1009 || 1011 <= code <= 1014) else code != 1000
  {
  }

  /** A close the writer throws at is not written, and neither is anything behind it. */
  lemma ThrownIsNotWritten(s: System, side: Side)
    requires Enabled(s, side, WriteMain) && Throws(At(s, side), At(s, side).outbox[0])
    ensures var t := Next(s, side, WriteMain);
            && From(t, side) == From(s, side) && At(t, side).outbox == At(s, side).outbox && At(t, side).refused
            && !Enabled(t, side, WriteMain)
  {
    hide Throws;
    WritingRefused(At(s, side));
    ThrownKeepsQueue(At(s, side));
    hide Writing;
  }

  lemma ThrownKeepsQueue(e: Endpoint)
    ensures e.(refused := true).outbox == e.outbox && e.(refused := true).refused
  {
  }

  /** Messages can be sent at any time and pings while open; `close` can be called at any time with a code of its side. */
  lemma CallsArePossible(s: System, side: Side, text: bool, data: seq<byte>, code: nat, reason: Option<seq<byte>>)
    ensures Enabled(s, side, Send(text, data))
    ensures Enabled(s, side, SendPing(data)) <==> At(s, side).readyState == Open
    ensures Enabled(s, side, CallClose(code, reason))
       <==> || 3000 <= code <= 4999
            || (if At(s, side).isServer then 1000 <= code <= 1003 || 1007 <= code <= 1009 || 1011 <= code <= 1014
                else code == 1000)
  {
  }
}
