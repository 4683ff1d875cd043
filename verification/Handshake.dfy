/** Two endpoints and the channels between them: every run in which at most one side calls `close`. */
module Handshake {
  import opened Bytes
  import opened WebSockets
  import Decoder
  import Interleaving

  datatype Side = ClientSide | ServerSide

  function Other(side: Side): Side {
    if side == ClientSide then ServerSide else ClientSide
  }

  datatype System = System(client: Endpoint, server: Endpoint, toServer: seq<Item>, toClient: seq<Item>)

  const START := System(Opened(false), Opened(true), [], [])

  function At(s: System, side: Side): Endpoint {
    if side == ClientSide then s.client else s.server
  }

  /** The items on their way from a side. */
  function From(s: System, side: Side): seq<Item> {
    if side == ClientSide then s.toServer else s.toClient
  }

  function Put(s: System, side: Side, e: Endpoint): System {
    if side == ClientSide then s.(client := e) else s.(server := e)
  }

  function PutFrom(s: System, side: Side, items: seq<Item>): System {
    if side == ClientSide then s.(toServer := items) else s.(toClient := items)
  }

  datatype Action =
    | Send(text: bool, data: seq<byte>)
    | SendPing(payload: seq<byte>)
    | CallClose(code: nat, reason: Option<seq<byte>>)
    | WriteMain
    | WriteControl
    | CloseResolves
    | Receive
    | End
    | SocketCloses

  // ---- one endpoint

  /** The reader lets a close code through, or fails. */
  predicate CodePasses(e: Endpoint, code: nat) {
    e.readerChecks ==> Decoder.CodeAllowed(if e.isServer then Decoder.Server else Decoder.Client, code)
  }

  function Handle(e: Endpoint, item: Item): Endpoint {
    match item
    case Data(_, _) => e
    case PongItem(_) => e
    case PingItem(payload) => ReceivingPing(e, payload)
    case CloseItem(code, reason) => if CodePasses(e, code) then ReceivingClose(e, code, reason) else e.(failed := true)
  }

  /** The writer throws at a code it may not send. */
  predicate Throws(e: Endpoint, item: Item) {
    item.CloseItem? && e.writerChecks && !Interleaving.CodeMaySend(!e.isServer, item.code)
  }

  /** The front of the message queue is written; a close stays there. */
  function Writing(e: Endpoint): Endpoint
    requires e.outbox != []
  {
    if Throws(e, e.outbox[0]) then e.(refused := true)
    else if e.outbox[0].CloseItem? then e.(closeWritten := true)
    else e.(outbox := e.outbox[1..])
  }

  predicate Live(e: Endpoint) {
    !e.readyState.Closed? && !e.ended && !e.failed
  }

  predicate Enabled(s: System, side: Side, a: Action) {
    var e := At(s, side);
    match a
    case Send(_, _) => true
    case SendPing(_) => e.readyState.Open?
    case CallClose(code, reason) => Interleaving.CodeMaySend(!e.isServer, code)
    case WriteMain => Live(e) && e.outbox != [] && !e.closeWritten && !e.refused
    case WriteControl => Live(e) && e.controls != []
    case CloseResolves => e.closeWritten && !e.closeFrameSent
    case Receive => !e.readyState.Closed? && !e.failed && From(s, Other(side)) != []
    case End => e.isServer && e.closeFrameReceived && (e.echoing ==> e.closeFrameSent) && !e.ended
    case SocketCloses =>
      !e.readyState.Closed?
      && if side == ClientSide then s.server.ended && s.toClient == [] else s.client.readyState.Closed?
  }

  function Next(s: System, side: Side, a: Action): System
    requires Enabled(s, side, a)
  {
    var e := At(s, side);
    match a
    case Send(text, data) => Put(s, side, Sending(e, text, data))
    case SendPing(payload) => Put(s, side, e.(controls := e.controls + [PingItem(payload)]))
    case CallClose(code, reason) => Put(s, side, CallingClose(e, code, reason))
    case WriteMain =>
      var e' := Writing(e);
      var s := Put(s, side, e');
      if e'.refused then s else PutFrom(s, side, From(s, side) + [e.outbox[0]])
    case WriteControl =>
      PutFrom(Put(s, side, e.(controls := e.controls[1..])), side, From(s, side) + [e.controls[0]])
    case CloseResolves => Put(s, side, e.(closeFrameSent := true))
    case Receive =>
      var items := From(s, Other(side));
      PutFrom(Put(s, side, Handle(e.(received := e.received + [items[0]]), items[0])), Other(side), items[1..])
    case End => Put(s, side, e.(ended := true))
    case SocketCloses => Put(s, side, SocketClosing(e))
  }

  datatype Step = Step(side: Side, action: Action)

  predicate Possible(s: System, steps: seq<Step>)
    decreases |steps|
  {
    steps == [] || (Enabled(s, steps[0].side, steps[0].action)
                    && Possible(Next(s, steps[0].side, steps[0].action), steps[1..]))
  }

  function After(s: System, steps: seq<Step>): System
    requires Possible(s, steps)
    decreases |steps|
  {
    if steps == [] then s else After(Next(s, steps[0].side, steps[0].action), steps[1..])
  }

  /** Only one side calls `close`. */
  predicate OneCloser(closer: Side, steps: seq<Step>) {
    forall i :: 0 <= i < |steps| && steps[i].action.CallClose? ==> steps[i].side == closer
  }

  // ---- lists of items

  /** Messages and closes, in order. */
  function Main(items: seq<Item>): seq<Item> {
    if items == [] then []
    else (if items[0].Data? || items[0].CloseItem? then [items[0]] else []) + Main(items[1..])
  }

  function Pongs(items: seq<Item>): seq<Item> {
    if items == [] then [] else (if items[0].PongItem? then [items[0]] else []) + Pongs(items[1..])
  }

  lemma {:induction false} MainConcat(a: seq<Item>, b: seq<Item>)
    ensures Main(a + b) == Main(a) + Main(b)
  {
    if a == [] {
      assert a + b == b;
    } else {
      assert (a + b)[1..] == a[1..] + b && (a + b)[0] == a[0];
      MainConcat(a[1..], b);
      Interleaving.Assoc(if a[0].Data? || a[0].CloseItem? then [a[0]] else [], Main(a[1..]), Main(b));
    }
  }

  lemma {:induction false} PongsConcat(a: seq<Item>, b: seq<Item>)
    ensures Pongs(a + b) == Pongs(a) + Pongs(b)
  {
    if a == [] {
      assert a + b == b;
    } else {
      assert (a + b)[1..] == a[1..] + b && (a + b)[0] == a[0];
      PongsConcat(a[1..], b);
      Interleaving.Assoc(if a[0].PongItem? then [a[0]] else [], Pongs(a[1..]), Pongs(b));
    }
  }

  /** The calls still to be written: up to the first close, none behind it. */
  function UpToClose(outbox: seq<Item>): seq<Item> {
    if outbox == [] then []
    else [outbox[0]] + if outbox[0].CloseItem? then [] else UpToClose(outbox[1..])
  }

  predicate HasClose(items: seq<Item>) {
    exists i :: 0 <= i < |items| && items[i].CloseItem?
  }

  /** Pings received before a close, as the pongs that answer them. */
  function Answers(received: seq<Item>): seq<Item> {
    if received == [] then []
    else
      var last, before := received[|received| - 1], received[..|received| - 1];
      Answers(before) + if last.PingItem? && !HasClose(before) then [PongItem(last.payload)] else []
  }

  // ---- invariants

  /** The messages and closes a side has not put on the wire. */
  function Unsent(outbox: seq<Item>, closeWritten: bool): seq<Item> {
    if closeWritten then [] else UpToClose(outbox)
  }

  /** Nothing is lost, overtaken or made up in one direction. */
  ghost predicate Link(received: seq<Item>, channel: seq<Item>, unsent: seq<Item>, issued: seq<Item>) {
    Main(received) + Main(channel) + unsent == issued
  }

  /** The same for the answers to the pings in `heard`. */
  ghost predicate AnswerLink(received: seq<Item>, channel: seq<Item>, controls: seq<Item>, heard: seq<Item>) {
    Pongs(received) + Pongs(channel) + Pongs(controls) == Answers(heard)
  }

  predicate CloseIsLast(items: seq<Item>) {
    forall i :: 0 <= i < |items| - 1 ==> !items[i].CloseItem?
  }

  predicate IsMain(items: seq<Item>) {
    forall i :: 0 <= i < |items| ==> items[i].Data? || items[i].CloseItem?
  }

  /** The last call recorded. */
  function Last(issued: seq<Item>): Item {
    if issued == [] then PingItem([]) else issued[|issued| - 1]
  }

  /** The calls of a side: nothing counts behind its close, which stays in the queue. */
  predicate CallsOk(outbox: seq<Item>, issued: seq<Item>, closeCalled: bool, closeWritten: bool) {
    && IsMain(outbox)
    && CloseIsLast(issued)
    && (closeCalled <==> Last(issued).CloseItem?)
    && (closeCalled <==> HasClose(outbox))
    && (closeWritten ==> outbox != [] && outbox[0].CloseItem?)
  }

  ghost predicate Own(e: Endpoint) {
    && CallsOk(e.outbox, e.issued, e.closeCalled, e.closeWritten)
    && (forall i :: 0 <= i < |e.controls| ==> e.controls[i].PingItem? || e.controls[i].PongItem?)
    && (e.closeFrameSent ==> e.closeWritten)
    && (e.closeFrameReceived <==> HasClose(e.received))
    && (e.closeCalled ==> !e.readyState.Open?)
    && !e.failed && !e.refused
    && (e.isServer && e.closeCalled ==> !e.readerChecks)
    && (e.closeFrameReceived ==> !e.writerChecks)
  }

  predicate Legal(e: Endpoint, close: Item) {
    close.CloseItem? && Interleaving.CodeMaySend(!e.isServer, close.code) && close.reason != Some([])
  }

  predicate Reports(e: Endpoint, close: Item) {
    close.CloseItem? && e.closeCode == Some(close.code) && e.closeReason == close.reason
  }

  /** The closer `i` and its peer `p`, which only echoes. */
  predicate Agreement(i: Endpoint, p: Endpoint) {
    && !i.echoing
    && (p.closeCalled <==> p.closeFrameReceived)
    && (p.closeCalled ==> p.echoing && i.closeCalled && Last(p.issued) == Last(i.issued))
    && (i.closeCalled ==> Legal(i, Last(i.issued)))
    && (i.closeFrameReceived ==> p.closeCalled && Reports(i, Last(i.issued)))
    && (p.closeFrameReceived ==> Reports(p, Last(i.issued)))
  }

  ghost predicate Linked(s: Endpoint, channel: seq<Item>, r: Endpoint) {
    && Link(r.received, channel, Unsent(s.outbox, s.closeWritten), s.issued)
    && AnswerLink(r.received, channel, s.controls, s.received)
  }

  /** The server has ended the stream only once both closes are on the wire, and the client has closed only after that. */
  predicate Ending(s: System) {
    && !s.client.ended
    && (s.server.ended ==> s.server.closeWritten && s.client.closeWritten && s.server.closeFrameReceived)
    && (s.client.readyState.Closed? ==> s.server.ended && s.toClient == [])
    && (s.server.readyState.Closed? ==> s.client.readyState.Closed?)
  }

  predicate Sides(s: System) {
    !s.client.isServer && s.server.isServer
  }

  ghost predicate Linkages(s: System) {
    && Own(s.client) && Own(s.server)
    && Linked(s.client, s.toServer, s.server) && Linked(s.server, s.toClient, s.client)
  }

  ghost predicate Inv(s: System, closer: Side) {
    Sides(s) && Linkages(s) && Agreement(At(s, closer), At(s, Other(closer))) && Ending(s)
  }

  // ---- lists

  lemma {:induction false} UpToCloseSnoc(outbox: seq<Item>, item: Item)
    ensures UpToClose(outbox + [item]) == UpToClose(outbox) + if HasClose(outbox) then [] else [item]
  {
    if outbox == [] {
      assert [] + [item] == [item] && UpToClose([item]) == [item] + [];
    } else {
      assert (outbox + [item])[1..] == outbox[1..] + [item];
      HasCloseCons(outbox);
      if outbox[0].CloseItem? {
        assert UpToClose(outbox) + [] == UpToClose(outbox);
      } else {
        UpToCloseSnoc(outbox[1..], item);
        Interleaving.Assoc([outbox[0]], UpToClose(outbox[1..]), if HasClose(outbox) then [] else [item]);
      }
    }
  }

  lemma HasCloseCons(items: seq<Item>)
    requires items != []
    ensures HasClose(items) <==> items[0].CloseItem? || HasClose(items[1..])
  {
    if HasClose(items) && !items[0].CloseItem? {
      var i :| 0 <= i < |items| && items[i].CloseItem?;
      assert items[1..][i - 1].CloseItem?;
    } else if HasClose(items[1..]) {
      var i :| 0 <= i < |items[1..]| && items[1..][i].CloseItem?;
      assert items[i + 1].CloseItem?;
    }
  }

  lemma HasCloseSnoc(items: seq<Item>, item: Item)
    ensures HasClose(items + [item]) <==> HasClose(items) || item.CloseItem?
  {
    if HasClose(items) {
      var i :| 0 <= i < |items| && items[i].CloseItem?;
      assert (items + [item])[i].CloseItem?;
    } else if item.CloseItem? {
      assert (items + [item])[|items|].CloseItem?;
    }
  }

  lemma {:induction false} HasCloseMain(items: seq<Item>)
    ensures HasClose(Main(items)) <==> HasClose(items)
  {
    if items != [] {
      HasCloseCons(items);
      HasCloseMain(items[1..]);
      if Main(items) != [] {
        HasCloseCons(Main(items));
      }
      if items[0].Data? || items[0].CloseItem? {
        assert Main(items)[1..] == Main(items[1..]);
      } else {
        assert Main(items) == Main(items[1..]);
      }
    }
  }

  /** A list whose only close is its last element, cut in two behind a close. */
  lemma NothingBehindClose(a: seq<Item>, b: seq<Item>, all: seq<Item>)
    requires a + b == all && CloseIsLast(all) && HasClose(a)
    ensures b == [] && a == all
  {
    var i :| 0 <= i < |a| && a[i].CloseItem?;
    assert all[i] == a[i];
    assert i == |all| - 1;
  }

  /** Once a close is received, everything issued on its side has been: nothing is on the way or unsent. */
  lemma ReceivedIsAll(received: seq<Item>, channel: seq<Item>, unsent: seq<Item>, issued: seq<Item>)
    requires Link(received, channel, unsent, issued) && CloseIsLast(issued) && HasClose(received)
    ensures Main(channel) == [] && unsent == [] && Main(received) == issued
  {
    hide Main;
    HasCloseMain(received);
    Interleaving.Assoc(Main(received), Main(channel), unsent);
    NothingBehindClose(Main(received), Main(channel) + unsent, issued);
  }

  /** A close at the front of a channel is the last call of its side, and the first close received. */
  lemma ArrivingClose(received: seq<Item>, channel: seq<Item>, unsent: seq<Item>, issued: seq<Item>)
    requires Link(received, channel, unsent, issued) && CloseIsLast(issued) && channel != [] && channel[0].CloseItem?
    ensures Last(issued) == channel[0] && !HasClose(received)
  {
    var c := channel[0];
    assert Main(channel) == [c] + Main(channel[1..]);
    if HasClose(received) {
      ReceivedIsAll(received, channel, unsent, issued);
    }
    var rest := Main(channel[1..]) + unsent;
    assert issued == Main(received) + ([c] + rest);
    assert issued[|Main(received)|] == c;
  }

  lemma WrittenClose(outbox: seq<Item>, issued: seq<Item>, closeCalled: bool, closeWritten: bool)
    requires CallsOk(outbox, issued, closeCalled, closeWritten) && closeCalled && Unsent(outbox, closeWritten) == []
    ensures closeWritten
  {
  }

  // ---- what each kind of step keeps in a direction

  lemma Regroup<T>(a: seq<T>, b: seq<T>, x: seq<T>, c: seq<T>)
    ensures (a + (b + x)) + c == (a + b) + (x + c)
  {
  }

  /** A `send` or the first `close` joins the queue; behind a close it counts no more. */
  lemma CallKeepsCalls(outbox: seq<Item>, issued: seq<Item>, closeCalled: bool, closeWritten: bool, item: Item)
    requires CallsOk(outbox, issued, closeCalled, closeWritten) && (item.Data? || (item.CloseItem? && !closeCalled))
    ensures CallsOk(outbox + [item], if closeCalled then issued else issued + [item], closeCalled || item.CloseItem?, closeWritten)
    ensures closeCalled <==> HasClose(outbox)
    ensures closeWritten ==> closeCalled
  {
    HasCloseSnoc(outbox, item);
    assert closeWritten ==> HasClose(outbox);
    hide HasClose;
  }

  lemma CallKeepsLink(received: seq<Item>, channel: seq<Item>, outbox: seq<Item>, issued: seq<Item>,
                      closeCalled: bool, closeWritten: bool, item: Item)
    requires CallsOk(outbox, issued, closeCalled, closeWritten) && (item.Data? || (item.CloseItem? && !closeCalled))
    requires Link(received, channel, Unsent(outbox, closeWritten), issued)
    ensures var issued' := if closeCalled then issued else issued + [item];
            && CallsOk(outbox + [item], issued', closeCalled || item.CloseItem?, closeWritten)
            && Link(received, channel, Unsent(outbox + [item], closeWritten), issued')
  {
    CallKeepsCalls(outbox, issued, closeCalled, closeWritten, item);
    UpToCloseSnoc(outbox, item);
    hide Main;
    hide CallsOk;
    hide UpToClose;
    hide HasClose;
    assert UpToClose(outbox) + [] == UpToClose(outbox);
    Interleaving.Assoc(Main(received) + Main(channel), UpToClose(outbox), [item]);
  }

  lemma WriteKeepsCalls(outbox: seq<Item>, issued: seq<Item>, closeCalled: bool)
    requires CallsOk(outbox, issued, closeCalled, false) && outbox != []
    ensures var close := outbox[0].CloseItem?;
            CallsOk(if close then outbox else outbox[1..], issued, closeCalled, close)
  {
    HasCloseCons(outbox);
    hide HasClose;
  }

  lemma FrontIsUnsent(outbox: seq<Item>)
    requires outbox != []
    ensures var close := outbox[0].CloseItem?;
            Unsent(outbox, false) == [outbox[0]] + Unsent(if close then outbox else outbox[1..], close)
  {
  }

  lemma FlowMoves(received: seq<Item>, channel: seq<Item>, item: Item, unsent: seq<Item>, issued: seq<Item>)
    requires (item.Data? || item.CloseItem?) && Link(received, channel, [item] + unsent, issued)
    ensures Link(received, channel + [item], unsent, issued)
  {
    MainConcat(channel, [item]);
    assert Main([item]) == [item] + [];
    hide Main;
    Regroup(Main(received), Main(channel), [item], unsent);
  }

  /** The front of the queue goes on the wire; a close stays in the queue. */
  lemma WriteKeepsLink(received: seq<Item>, channel: seq<Item>, outbox: seq<Item>, issued: seq<Item>, closeCalled: bool)
    requires CallsOk(outbox, issued, closeCalled, false) && outbox != []
    requires Link(received, channel, Unsent(outbox, false), issued)
    ensures var close := outbox[0].CloseItem?;
            var outbox' := if close then outbox else outbox[1..];
            && CallsOk(outbox', issued, closeCalled, close)
            && Link(received, channel + [outbox[0]], Unsent(outbox', close), issued)
  {
    var item := outbox[0];
    assert item.Data? || item.CloseItem?;
    WriteKeepsCalls(outbox, issued, closeCalled);
    FrontIsUnsent(outbox);
    hide CallsOk;
    hide Unsent;
    FlowMoves(received, channel, item, Unsent(if item.CloseItem? then outbox else outbox[1..], item.CloseItem?), issued);
    hide Link;
  }

  /** A close at the front of the queue is the last call that counts. */
  lemma FrontIsLast(received: seq<Item>, channel: seq<Item>, outbox: seq<Item>, issued: seq<Item>)
    requires outbox != [] && outbox[0].CloseItem? && Link(received, channel, Unsent(outbox, false), issued)
    ensures Last(issued) == outbox[0]
  {
    hide Main;
    assert UpToClose(outbox) == [outbox[0]] + [];
  }

  lemma ControlKeepsLink(received: seq<Item>, channel: seq<Item>, unsent: seq<Item>, issued: seq<Item>,
                         controls: seq<Item>, heard: seq<Item>)
    requires controls != [] && (controls[0].PingItem? || controls[0].PongItem?)
    requires Link(received, channel, unsent, issued) && AnswerLink(received, channel, controls, heard)
    ensures Link(received, channel + [controls[0]], unsent, issued)
    ensures AnswerLink(received, channel + [controls[0]], controls[1..], heard)
  {
    var item := controls[0];
    MainConcat(channel, [item]);
    PongsConcat(channel, [item]);
    var first, rest := if item.PongItem? then [item] else [], Pongs(controls[1..]);
    assert Main([item]) == [] && Pongs([item]) == first + [] == first && Pongs(controls) == first + rest;
    assert Main(channel) + [] == Main(channel);
    hide Main;
    hide Pongs;
    hide Answers;
    Regroup(Pongs(received), Pongs(channel), first, rest);
  }

  /** An item written as a message or close carries no pong. */
  lemma MainKeepsAnswers(received: seq<Item>, channel: seq<Item>, controls: seq<Item>, heard: seq<Item>, item: Item)
    requires item.Data? || item.CloseItem?
    requires AnswerLink(received, channel, controls, heard)
    ensures AnswerLink(received, channel + [item], controls, heard)
  {
    PongsConcat(channel, [item]);
    assert Pongs([item]) == [] && Pongs(channel) + [] == Pongs(channel);
    hide Pongs;
    hide Answers;
  }

  lemma ReceiveKeepsLink(received: seq<Item>, channel: seq<Item>, unsent: seq<Item>, issued: seq<Item>,
                         controls: seq<Item>, heard: seq<Item>)
    requires channel != []
    requires Link(received, channel, unsent, issued) && AnswerLink(received, channel, controls, heard)
    ensures Link(received + [channel[0]], channel[1..], unsent, issued)
    ensures AnswerLink(received + [channel[0]], channel[1..], controls, heard)
  {
    var item := channel[0];
    assert channel == [item] + channel[1..];
    MainConcat(received, [item]);
    MainConcat([item], channel[1..]);
    PongsConcat(received, [item]);
    PongsConcat([item], channel[1..]);
    hide Main;
    hide Pongs;
    hide Answers;
    Interleaving.Assoc(Main(received), Main([item]), Main(channel[1..]));
    Interleaving.Assoc(Pongs(received), Pongs([item]), Pongs(channel[1..]));
  }

  /** What is received is answered if it is a ping before any close. */
  lemma HeardKeepsAnswers(received: seq<Item>, channel: seq<Item>, controls: seq<Item>, heard: seq<Item>, item: Item)
    requires AnswerLink(received, channel, controls, heard)
    ensures var controls' := if item.PingItem? && !HasClose(heard) then controls + [PongItem(item.payload)] else controls;
            AnswerLink(received, channel, controls', heard + [item])
  {
    assert (heard + [item])[..|heard|] == heard;
    assert Answers(heard) + [] == Answers(heard);
    if item.PingItem? && !HasClose(heard) {
      var pong := PongItem(item.payload);
      PongsConcat(controls, [pong]);
      assert Pongs([pong]) == [pong] + [];
      hide Pongs;
      hide HasClose;
      Interleaving.Assoc(Pongs(received) + Pongs(channel), Pongs(controls), [pong]);
    }
    hide Pongs;
  }

  /** A ping of one's own adds no pong. */
  lemma PingKeepsAnswers(received: seq<Item>, channel: seq<Item>, controls: seq<Item>, heard: seq<Item>, payload: seq<byte>)
    requires AnswerLink(received, channel, controls, heard)
    ensures AnswerLink(received, channel, controls + [PingItem(payload)], heard)
  {
    PongsConcat(controls, [PingItem(payload)]);
    assert Pongs([PingItem(payload)]) == [] && Pongs(controls) + [] == Pongs(controls);
    hide Pongs;
    hide Answers;
  }

  // ---- every step of one closer's runs

  /** Calls of `send`, and the first `close` of a side, change its own queue and record alone. */
  lemma CallKeepsOwn(e: Endpoint, channel: seq<Item>, other: Endpoint, item: Item)
    requires Own(e) && Linked(e, channel, other) && (item.Data? || (item.CloseItem? && !e.closeCalled))
    ensures var e' := e.(outbox := e.outbox + [item], issued := if e.closeCalled then e.issued else e.issued + [item],
                         closeCalled := e.closeCalled || item.CloseItem?,
                         readyState := if item.CloseItem? then Closing else e.readyState,
                         readerChecks := if item.CloseItem? then e.readerChecks && !e.isServer else e.readerChecks);
            Own(e') && Linked(e', channel, other)
  {
    CallKeepsLink(other.received, channel, e.outbox, e.issued, e.closeCalled, e.closeWritten, item);
    hide CallsOk;
    hide Link;
    hide AnswerLink;
    hide HasClose;
    hide Unsent;
  }

  lemma ReceiverKeepsLinked(s: Endpoint, channel: seq<Item>, r: Endpoint, r': Endpoint)
    requires Linked(s, channel, r) && r'.received == r.received
    ensures Linked(s, channel, r')
  {
    hide Link;
    hide AnswerLink;
    hide Unsent;
  }

  /** A change of one side's own state. */
  lemma PutKeepsLinkages(s: System, side: Side, e: Endpoint)
    requires Linkages(s) && Own(e) && Linked(e, From(s, side), At(s, Other(side))) && e.received == At(s, side).received
    ensures Linkages(Put(s, side, e))
  {
    ReceiverKeepsLinked(At(s, Other(side)), From(s, Other(side)), At(s, side), e);
    hide Own;
    hide Linked;
  }

  lemma SendKeepsLinkages(s: System, side: Side, text: bool, data: seq<byte>)
    requires Linkages(s)
    ensures Linkages(Next(s, side, Send(text, data)))
  {
    var e := At(s, side);
    var item := Data(text, data);
    CallKeepsOwn(e, From(s, side), At(s, Other(side)), item);
    var e' := Sending(e, text, data);
    assert e' == e.(outbox := e.outbox + [item], issued := if e.closeCalled then e.issued else e.issued + [item]);
    hide Own;
    hide Linked;
    PutKeepsLinkages(s, side, e');
  }

  lemma PingKeepsLinkages(s: System, side: Side, payload: seq<byte>)
    requires Linkages(s)
    ensures var e := At(s, side); Linkages(Put(s, side, e.(controls := e.controls + [PingItem(payload)])))
  {
    var e, o := At(s, side), At(s, Other(side));
    PingKeepsAnswers(o.received, From(s, side), e.controls, e.received, payload);
    hide CallsOk;
    hide Link;
    hide AnswerLink;
    hide HasClose;
    PutKeepsLinkages(s, side, e.(controls := e.controls + [PingItem(payload)]));
  }

  lemma CloseKeepsLinkages(s: System, side: Side, code: nat, reason: Option<seq<byte>>)
    requires Linkages(s)
    ensures Linkages(Put(s, side, CallingClose(At(s, side), code, reason)))
  {
    var e := At(s, side);
    var item := CloseFor(code, reason);
    if e.closeCalled {
      hide Own;
      hide Linked;
      PutKeepsLinkages(s, side, e);
    } else {
      CallKeepsOwn(e, From(s, side), At(s, Other(side)), item);
      hide Own;
      hide Linked;
      hide CloseFor;
      PutKeepsLinkages(s, side, CallingClose(e, code, reason));
    }
  }

  /** The end of a `close` call, of the stream, of the socket: no queue changes. */
  lemma FlagsKeepLinkages(s: System, side: Side, sent: bool, ended: bool, readyState: ReadyState, emitted: Option<Outcome>)
    requires Linkages(s) && (sent ==> At(s, side).closeFrameSent || At(s, side).closeWritten)
    requires At(s, side).closeCalled ==> !readyState.Open?
    ensures var e := At(s, side);
            Linkages(Put(s, side, e.(closeFrameSent := sent, ended := ended, readyState := readyState, emitted := emitted)))
  {
    var e := At(s, side);
    var e' := e.(closeFrameSent := sent, ended := ended, readyState := readyState, emitted := emitted);
    hide CallsOk;
    hide Link;
    hide AnswerLink;
    hide HasClose;
    PutKeepsLinkages(s, side, e');
  }

  /** The front of the message queue goes on the wire, a close that may be sent stays in the queue. */
  lemma WriteKeepsOwn(e: Endpoint, channel: seq<Item>, other: Endpoint)
    requires Own(e) && Linked(e, channel, other) && e.outbox != [] && !e.closeWritten
    ensures var close := e.outbox[0].CloseItem?;
            var e' := e.(outbox := if close then e.outbox else e.outbox[1..], closeWritten := close);
            Own(e') && Linked(e', channel + [e.outbox[0]], other)
  {
    WriteKeepsLink(other.received, channel, e.outbox, e.issued, e.closeCalled);
    assert e.outbox[0].Data? || e.outbox[0].CloseItem?;
    MainKeepsAnswers(other.received, channel, e.controls, e.received, e.outbox[0]);
    hide CallsOk;
    hide Link;
    hide AnswerLink;
    hide HasClose;
    hide Unsent;
  }

  lemma WritingIs(e: Endpoint)
    requires e.outbox != [] && !e.closeWritten && !e.refused && !Writing(e).refused
    ensures var close := e.outbox[0].CloseItem?;
            Writing(e) == e.(outbox := if close then e.outbox else e.outbox[1..], closeWritten := close)
  {
  }

  lemma ControlKeepsOwn(e: Endpoint, channel: seq<Item>, other: Endpoint)
    requires Own(e) && Linked(e, channel, other) && e.controls != []
    ensures var e' := e.(controls := e.controls[1..]); Own(e') && Linked(e', channel + [e.controls[0]], other)
  {
    ControlKeepsLink(other.received, channel, Unsent(e.outbox, e.closeWritten), e.issued, e.controls, e.received);
    hide CallsOk;
    hide Link;
    hide AnswerLink;
    hide HasClose;
    hide Unsent;
  }

  lemma SentKeepsLinkages(s: System, side: Side, e: Endpoint, item: Item)
    requires Linkages(s) && Own(e) && Linked(e, From(s, side) + [item], At(s, Other(side)))
    requires e.received == At(s, side).received
    ensures Linkages(PutFrom(Put(s, side, e), side, From(s, side) + [item]))
  {
    ReceiverKeepsLinked(At(s, Other(side)), From(s, Other(side)), At(s, side), e);
    hide Own;
    hide Linked;
  }

  /** A close is noted and, unless the side has called for its own, echoed. */
  lemma CloseIsHandled(e: Endpoint, channel: seq<Item>, other: Endpoint, close: Item)
    requires Own(e) && Linked(e, channel, other)
    requires close.CloseItem? && close.code != 1005 && close.reason != Some([]) && !e.closeFrameReceived
    ensures var e' := ReceivingClose(e.(received := e.received + [close]), close.code, close.reason);
            Own(e') && Linked(e', channel, other)
  {
    HeardKeepsAnswers(other.received, channel, e.controls, e.received, close);
    HasCloseSnoc(e.received, close);
    hide CallsOk;
    hide Link;
    hide AnswerLink;
    hide HasClose;
    hide Unsent;
    var noted := e.(received := e.received + [close], closeFrameReceived := true, readyState := Closing,
                    closeCode := Some(close.code), closeReason := close.reason, writerChecks := false,
                    echoing := !e.closeCalled);
    assert Own(noted) && Linked(noted, channel, other);
    if !e.closeCalled {
      assert CloseFor(close.code, close.reason) == close;
      CallKeepsOwn(noted, channel, other, close);
    }
  }

  lemma ControlIsHandled(e: Endpoint, channel: seq<Item>, other: Endpoint, item: Item)
    requires Own(e) && Linked(e, channel, other) && !item.CloseItem?
    ensures var controls := if item.PingItem? && !e.closeFrameReceived then e.controls + [PongItem(item.payload)] else e.controls;
            var e' := e.(received := e.received + [item], controls := controls);
            Own(e') && Linked(e', channel, other)
  {
    HeardKeepsAnswers(other.received, channel, e.controls, e.received, item);
    HasCloseSnoc(e.received, item);
    hide CallsOk;
    hide Link;
    hide AnswerLink;
    hide HasClose;
    hide Unsent;
  }

  lemma HandleKeepsOwn(e: Endpoint, channel: seq<Item>, other: Endpoint, item: Item)
    requires Own(e) && Linked(e, channel, other)
    requires item.CloseItem? ==> item.code != 1005 && item.reason != Some([]) && !e.closeFrameReceived && CodePasses(e, item.code)
    ensures var e' := Handle(e.(received := e.received + [item]), item);
            Own(e') && Linked(e', channel, other) && e'.received == e.received + [item]
  {
    hide Own;
    hide Linked;
    if item.CloseItem? {
      CloseIsHandled(e, channel, other, item);
    } else {
      ControlIsHandled(e, channel, other, item);
    }
  }

  lemma ReceiveKeepsLinkages(s: System, side: Side)
    requires Linkages(s) && From(s, Other(side)) != []
    requires var item := From(s, Other(side))[0];
             item.CloseItem? ==> item.code != 1005 && item.reason != Some([]) && !At(s, side).closeFrameReceived
                                 && CodePasses(At(s, side), item.code)
    ensures var e, items := At(s, side), From(s, Other(side));
            Linkages(PutFrom(Put(s, side, Handle(e.(received := e.received + [items[0]]), items[0])), Other(side), items[1..]))
  {
    var e, o, items := At(s, side), At(s, Other(side)), From(s, Other(side));
    HandleKeepsOwn(e, From(s, side), o, items[0]);
    ReceiverAdvances(o, items, e, Handle(e.(received := e.received + [items[0]]), items[0]));
    hide Own;
    hide Linked;
    hide Handle;
  }

  lemma ReceiverAdvances(s: Endpoint, channel: seq<Item>, r: Endpoint, r': Endpoint)
    requires Linked(s, channel, r) && channel != [] && r'.received == r.received + [channel[0]]
    ensures Linked(s, channel[1..], r')
  {
    ReceiveKeepsLink(r.received, channel, Unsent(s.outbox, s.closeWritten), s.issued, s.controls, s.received);
    hide Link;
    hide AnswerLink;
    hide Unsent;
  }

  // ---- the closes agree

  /** Whoever has received a close has received all the other side issued, and that side has written it all. */
  lemma HeardClose(s: Endpoint, channel: seq<Item>, r: Endpoint)
    requires Own(s) && Own(r) && Linked(s, channel, r) && r.closeFrameReceived
    ensures Main(channel) == [] && s.closeWritten && s.closeCalled && Main(r.received) == s.issued
  {
    ReceivedIsAll(r.received, channel, Unsent(s.outbox, s.closeWritten), s.issued);
    HasCloseMain(r.received);
    var i :| 0 <= i < |s.issued| && s.issued[i].CloseItem?;
    assert i == |s.issued| - 1;
    WrittenClose(s.outbox, s.issued, s.closeCalled, s.closeWritten);
    hide Main;
    hide HasClose;
  }

  lemma SendAgrees(i: Endpoint, p: Endpoint, text: bool, data: seq<byte>)
    requires Agreement(i, p)
    ensures Agreement(Sending(i, text, data), p) && Agreement(i, Sending(p, text, data))
  {
    hide Interleaving.CodeMaySend;
  }

  lemma CloseAgrees(i: Endpoint, p: Endpoint, code: nat, reason: Option<seq<byte>>)
    requires Agreement(i, p) && Interleaving.CodeMaySend(!i.isServer, code)
    ensures Agreement(CallingClose(i, code, reason), p)
  {
    hide Interleaving.CodeMaySend;
  }

  /** What an endpoint reads, writes and resolves besides leaves the closes as they are. */
  predicate SameCloses(e: Endpoint, e': Endpoint) {
    && e'.isServer == e.isServer && e'.echoing == e.echoing && e'.closeCalled == e.closeCalled && e'.issued == e.issued
    && e'.closeFrameReceived == e.closeFrameReceived && e'.closeCode == e.closeCode && e'.closeReason == e.closeReason
  }

  lemma SameClosesAgree(i: Endpoint, i': Endpoint, p: Endpoint, p': Endpoint)
    requires Agreement(i, p) && SameCloses(i, i') && SameCloses(p, p')
    ensures Agreement(i', p')
  {
  }

  /** The closer's code passes its peer's reader, and the echo the closer's. */
  lemma LegalPasses(i: Endpoint, e: Endpoint, close: Item)
    requires Legal(i, close) && (e.isServer != i.isServer || (e == i && (i.isServer ==> !i.readerChecks)))
    ensures CodePasses(e, close.code) && close.code != 1005 && close.reason != Some([])
  {
  }

  lemma PeerHearsClose(i: Endpoint, p: Endpoint, p1: Endpoint, close: Item)
    requires Agreement(i, p) && SameCloses(p, p1) && Legal(i, close) && close == Last(i.issued) && i.closeCalled
    requires !p.closeFrameReceived && close.code != 1005
    ensures Agreement(i, ReceivingClose(p1, close.code, close.reason))
  {
    hide Interleaving.CodeMaySend;
    assert CloseFor(close.code, close.reason) == close;
    assert Last(p1.issued + [close]) == close;
  }

  lemma CloserHearsEcho(i: Endpoint, i1: Endpoint, p: Endpoint, close: Item)
    requires Agreement(i, p) && SameCloses(i, i1) && p.closeCalled && close == Last(p.issued)
    requires !i.closeFrameReceived
    ensures Agreement(ReceivingClose(i1, close.code, close.reason), p)
  {
    hide Interleaving.CodeMaySend;
  }

  /** The close about to be received is its side's, legal, and the first. */
  lemma CloseArrives(s: System, closer: Side, side: Side)
    requires Inv(s, closer) && From(s, Other(side)) != [] && From(s, Other(side))[0].CloseItem?
    ensures var e, o, close := At(s, side), At(s, Other(side)), From(s, Other(side))[0];
            && close == Last(o.issued) && o.closeCalled && !e.closeFrameReceived
            && At(s, closer).closeCalled && close == Last(At(s, closer).issued) && Legal(At(s, closer), close)
            && CodePasses(e, close.code) && close.code != 1005 && close.reason != Some([])
  {
    var e, o := At(s, side), At(s, Other(side));
    var items := From(s, Other(side));
    assert Linked(o, items, e) && Own(o) && Own(e);
    ArrivingClose(e.received, items, Unsent(o.outbox, o.closeWritten), o.issued);
    var i := At(s, closer);
    hide CallsOk;
    hide Link;
    hide AnswerLink;
    hide HasClose;
    assert o.closeCalled by { CalledIsLast(o); }
    LegalPasses(i, e, items[0]);
  }

  lemma CalledIsLast(e: Endpoint)
    requires Own(e)
    ensures e.closeCalled <==> Last(e.issued).CloseItem?
  {
  }

  // ---- every step keeps the invariant

  /** The new state of one side, its channel and the rest unchanged or longer, as far as the end of the run is concerned. */
  lemma EndingKept(s: System, side: Side, e: Endpoint, items: seq<Item>)
    requires Ending(s) && e.ended == At(s, side).ended && (At(s, side).closeWritten ==> e.closeWritten)
    requires At(s, side).closeFrameReceived ==> e.closeFrameReceived
    requires e.readyState.Closed? ==> At(s, side).readyState.Closed?
    requires At(s, side).readyState.Closed? ==> e.readyState.Closed?
    requires items == From(s, side) || !e.ended
    ensures Ending(PutFrom(Put(s, side, e), side, items)) && Ending(Put(s, side, e))
  {
  }

  lemma SendStep(s: System, closer: Side, side: Side, text: bool, data: seq<byte>)
    requires Inv(s, closer)
    ensures Inv(Next(s, side, Send(text, data)), closer)
  {
    SendKeepsLinkages(s, side, text, data);
    SendAgrees(At(s, closer), At(s, Other(closer)), text, data);
    EndingKept(s, side, Sending(At(s, side), text, data), From(s, side));
    hide Linkages;
    hide Agreement;
    hide Ending;
  }

  lemma PingStep(s: System, closer: Side, side: Side, payload: seq<byte>)
    requires Inv(s, closer) && Enabled(s, side, SendPing(payload))
    ensures Inv(Next(s, side, SendPing(payload)), closer)
  {
    var e := At(s, side).(controls := At(s, side).controls + [PingItem(payload)]);
    PingKeepsLinkages(s, side, payload);
    WriteAgrees(s, closer, side, e, side, From(s, side));
    EndingKept(s, side, e, From(s, side));
    hide Linkages;
    hide Agreement;
    hide Ending;
  }

  lemma CalledWhenClosed(s: System)
    requires Linkages(s) && Ending(s)
    ensures s.client.readyState.Closed? ==> s.client.closeCalled
    ensures s.server.readyState.Closed? ==> s.server.closeCalled
    ensures s.server.ended ==> s.server.closeCalled && s.client.closeCalled
  {
    WrittenIsCalled(s.client);
    WrittenIsCalled(s.server);
    hide Linkages;
  }

  lemma WrittenIsCalled(e: Endpoint)
    requires Own(e)
    ensures e.closeWritten ==> e.closeCalled
  {
    assert e.closeWritten ==> HasClose(e.outbox);
  }

  lemma CloseStep(s: System, closer: Side, code: nat, reason: Option<seq<byte>>)
    requires Inv(s, closer) && Enabled(s, closer, CallClose(code, reason))
    ensures Inv(Next(s, closer, CallClose(code, reason)), closer)
  {
    CloseKeepsLinkages(s, closer, code, reason);
    CloseAgrees(At(s, closer), At(s, Other(closer)), code, reason);
    CalledWhenClosed(s);
    hide Linkages;
    EndingKept(s, closer, CallingClose(At(s, closer), code, reason), From(s, closer));
    hide Agreement;
    hide Ending;
  }

  /** The writer of either side may send the close at the front of its queue. */
  lemma CloseMayBeWritten(s: System, closer: Side, side: Side)
    requires Inv(s, closer) && Enabled(s, side, WriteMain)
    ensures !Writing(At(s, side)).refused
  {
    var e, o, i := At(s, side), At(s, Other(side)), At(s, closer);
    assert Own(e) && Linked(e, From(s, side), o);
    if e.outbox[0].CloseItem? {
      FrontIsLast(o.received, From(s, side), e.outbox, e.issued);
      assert HasClose(e.outbox);
    }
    hide Link;
    hide AnswerLink;
    hide HasClose;
  }

  lemma WriteAgrees(s: System, closer: Side, side: Side, e: Endpoint, from: Side, items: seq<Item>)
    requires Sides(s) && Agreement(At(s, closer), At(s, Other(closer))) && SameCloses(At(s, side), e)
    ensures var t := PutFrom(Put(s, side, e), from, items); Sides(t) && Agreement(At(t, closer), At(t, Other(closer)))
  {
    var i, p := At(s, closer), At(s, Other(closer));
    if side == closer {
      SameClosesAgree(i, e, p, p);
    } else {
      SameClosesAgree(i, i, p, e);
    }
    hide Agreement;
  }

  lemma NextWrites(s: System, side: Side)
    requires Enabled(s, side, WriteMain) && !Writing(At(s, side)).refused
    ensures var e := At(s, side);
            Next(s, side, WriteMain) == PutFrom(Put(s, side, Writing(e)), side, From(s, side) + [e.outbox[0]])
  {
    hide Writing;
  }

  lemma NextWritesControl(s: System, side: Side)
    requires Enabled(s, side, WriteControl)
    ensures var e := At(s, side);
            Next(s, side, WriteControl)
            == PutFrom(Put(s, side, e.(controls := e.controls[1..])), side, From(s, side) + [e.controls[0]])
  {
  }

  /** The parts of the invariant, seen from one side. */
  lemma SideLinks(s: System, side: Side)
    requires Linkages(s)
    ensures Own(At(s, side)) && Own(At(s, Other(side)))
    ensures Linked(At(s, side), From(s, side), At(s, Other(side)))
    ensures Linked(At(s, Other(side)), From(s, Other(side)), At(s, side))
  {
    hide Own;
    hide Linked;
  }

  lemma NothingRefused(e: Endpoint)
    requires Own(e)
    ensures !e.refused && !e.failed
  {
  }

  lemma WriteKeepsLinkages(s: System, side: Side)
    requires Linkages(s) && At(s, side).outbox != [] && !At(s, side).closeWritten && !Writing(At(s, side)).refused
    ensures var e := At(s, side);
            Linkages(PutFrom(Put(s, side, Writing(e)), side, From(s, side) + [e.outbox[0]]))
  {
    var e := At(s, side);
    SideLinks(s, side);
    hide Linkages;
    NothingRefused(e);
    hide Own;
    hide Linked;
    WriteKeepsOwn(e, From(s, side), At(s, Other(side)));
    WritingIs(e);
    SentKeepsLinkages(s, side, Writing(e), e.outbox[0]);
    hide Writing;
  }

  lemma ControlKeepsLinkages(s: System, side: Side)
    requires Linkages(s) && At(s, side).controls != []
    ensures var e := At(s, side);
            Linkages(PutFrom(Put(s, side, e.(controls := e.controls[1..])), side, From(s, side) + [e.controls[0]]))
  {
    var e := At(s, side);
    SideLinks(s, side);
    hide Linkages;
    hide Own;
    hide Linked;
    ControlKeepsOwn(e, From(s, side), At(s, Other(side)));
    SentKeepsLinkages(s, side, e.(controls := e.controls[1..]), e.controls[0]);
  }

  lemma WritingKeepsCloses(e: Endpoint)
    requires e.outbox != [] && !e.closeWritten && !e.refused && !Writing(e).refused
    ensures SameCloses(e, Writing(e))
    ensures Writing(e).ended == e.ended && Writing(e).readyState == e.readyState
  {
    WritingIs(e);
    hide Writing;
  }

  lemma WriteStep(s: System, closer: Side, side: Side)
    requires Inv(s, closer) && Enabled(s, side, WriteMain)
    ensures Inv(Next(s, side, WriteMain), closer)
  {
    var e, items := At(s, side), From(s, side) + [At(s, side).outbox[0]];
    CloseMayBeWritten(s, closer, side);
    NextWrites(s, side);
    hide Next;
    WriteKeepsLinkages(s, side);
    hide Linkages;
    WritingKeepsCloses(e);
    hide Writing;
    WriteAgrees(s, closer, side, Writing(e), side, items);
    hide Agreement;
    hide SameCloses;
    EndingKept(s, side, Writing(e), items);
    hide Ending;
  }

  lemma ControlStep(s: System, closer: Side, side: Side)
    requires Inv(s, closer) && Enabled(s, side, WriteControl)
    ensures Inv(Next(s, side, WriteControl), closer)
  {
    var e, items := At(s, side), From(s, side) + [At(s, side).controls[0]];
    var e' := e.(controls := e.controls[1..]);
    NextWritesControl(s, side);
    hide Next;
    ControlKeepsLinkages(s, side);
    hide Linkages;
    WriteAgrees(s, closer, side, e', side, items);
    hide Agreement;
    EndingKept(s, side, e', items);
    hide Ending;
  }

  /** What a side makes of the next item. */
  function Received(e: Endpoint, item: Item): Endpoint {
    Handle(e.(received := e.received + [item]), item)
  }

  lemma ControlsLeaveCloses(e: Endpoint, item: Item)
    requires !item.CloseItem?
    ensures SameCloses(e, Received(e, item))
  {
  }

  lemma CloseIsReceived(e: Endpoint, close: Item)
    requires close.CloseItem? && CodePasses(e, close.code)
    ensures var e1 := e.(received := e.received + [close]);
            SameCloses(e, e1) && Received(e, close) == ReceivingClose(e1, close.code, close.reason)
  {
    hide ReceivingClose;
  }

  lemma CloserReceives(s: System, closer: Side)
    requires Inv(s, closer) && Enabled(s, closer, Receive)
    ensures Agreement(Received(At(s, closer), From(s, Other(closer))[0]), At(s, Other(closer)))
  {
    var item, i, p := From(s, Other(closer))[0], At(s, closer), At(s, Other(closer));
    if item.CloseItem? {
      CloseArrives(s, closer, closer);
      CloseIsReceived(i, item);
      CloserHearsEcho(i, i.(received := i.received + [item]), p, item);
    } else {
      ControlsLeaveCloses(i, item);
      SameClosesAgree(i, Received(i, item), p, p);
    }
    hide Inv;
    hide Agreement;
    hide Received;
    hide ReceivingClose;
  }

  lemma PeerReceives(s: System, closer: Side)
    requires Inv(s, closer) && Enabled(s, Other(closer), Receive)
    ensures Agreement(At(s, closer), Received(At(s, Other(closer)), From(s, closer)[0]))
  {
    var item, i, p := From(s, closer)[0], At(s, closer), At(s, Other(closer));
    if item.CloseItem? {
      CloseArrives(s, closer, Other(closer));
      CloseIsReceived(p, item);
      PeerHearsClose(i, p, p.(received := p.received + [item]), item);
    } else {
      ControlsLeaveCloses(p, item);
      SameClosesAgree(i, i, p, Received(p, item));
    }
    hide Inv;
    hide Agreement;
    hide Received;
    hide ReceivingClose;
  }

  /** Neither ended nor closed. */
  predicate StaysUp(e: Endpoint, e': Endpoint) {
    && e'.isServer == e.isServer && e'.ended == e.ended && e'.closeWritten == e.closeWritten
    && (e.closeFrameReceived ==> e'.closeFrameReceived) && !e'.readyState.Closed?
  }

  lemma CallingStaysUp(e: Endpoint, code: nat, reason: Option<seq<byte>>)
    requires !e.readyState.Closed?
    ensures StaysUp(e, CallingClose(e, code, reason))
  {
    hide CloseFor;
  }

  lemma ReceivingStaysUp(e: Endpoint, code: nat, reason: Option<seq<byte>>)
    requires !e.readyState.Closed?
    ensures StaysUp(e, ReceivingClose(e, code, reason))
  {
    if !e.closeFrameReceived {
      var e1 := e.(closeFrameReceived := true, readyState := Closing, closeCode := Some(code), closeReason := reason,
                   writerChecks := false, echoing := !e.closeCalled);
      CallingStaysUp(e1, if code == 1005 then 1000 else code, reason);
      hide CallingClose;
    }
  }

  lemma PingStaysUp(e: Endpoint, payload: seq<byte>)
    requires !e.readyState.Closed?
    ensures StaysUp(e, ReceivingPing(e, payload))
  {
  }

  lemma HandledStaysUp(e: Endpoint, item: Item)
    requires !e.readyState.Closed?
    ensures StaysUp(e, Handle(e, item))
  {
    hide CodePasses;
    hide ReceivingClose;
    hide ReceivingPing;
    match item
    case Data(_, _) =>
    case PongItem(_) =>
    case PingItem(payload) => PingStaysUp(e, payload);
    case CloseItem(code, reason) => ReceivingStaysUp(e, code, reason);
  }

  /** Receiving neither ends nor closes anything. */
  lemma ReceivedStaysUp(e: Endpoint, item: Item)
    requires !e.readyState.Closed?
    ensures StaysUp(e, Received(e, item))
  {
    hide Handle;
    HandledStaysUp(e.(received := e.received + [item]), item);
  }

  lemma AdvanceKeepsEnding(s: System, side: Side, e: Endpoint, items: seq<Item>)
    requires Ending(s) && e.ended == At(s, side).ended && e.closeWritten == At(s, side).closeWritten
    requires (At(s, side).closeFrameReceived ==> e.closeFrameReceived) && !e.readyState.Closed? && !At(s, side).readyState.Closed?
    requires From(s, Other(side)) == [] ==> items == []
    ensures Ending(PutFrom(Put(s, side, e), Other(side), items))
  {
  }

  lemma NextReceives(s: System, side: Side)
    requires Enabled(s, side, Receive)
    ensures var items := From(s, Other(side));
            Next(s, side, Receive) == PutFrom(Put(s, side, Received(At(s, side), items[0])), Other(side), items[1..])
  {
    hide Handle;
  }

  lemma ReceivedAgrees(s: System, closer: Side, side: Side)
    requires Inv(s, closer) && Enabled(s, side, Receive)
    ensures var items := From(s, Other(side));
            var t := PutFrom(Put(s, side, Received(At(s, side), items[0])), Other(side), items[1..]);
            Agreement(At(t, closer), At(t, Other(closer)))
  {
    if side == closer {
      CloserReceives(s, closer);
    } else {
      PeerReceives(s, closer);
    }
    hide Inv;
    hide Agreement;
    hide Received;
  }

  lemma ReceivedKeepsLinkages(s: System, closer: Side, side: Side)
    requires Inv(s, closer) && Enabled(s, side, Receive)
    ensures var items := From(s, Other(side));
            Linkages(PutFrom(Put(s, side, Received(At(s, side), items[0])), Other(side), items[1..]))
  {
    if From(s, Other(side))[0].CloseItem? {
      CloseArrives(s, closer, side);
    }
    ReceiveKeepsLinkages(s, side);
    hide Linkages;
    hide Agreement;
    hide Ending;
    hide Handle;
  }

  lemma ReceivedSides(s: System, closer: Side, side: Side)
    requires Inv(s, closer) && Enabled(s, side, Receive)
    ensures var items := From(s, Other(side));
            var t := PutFrom(Put(s, side, Received(At(s, side), items[0])), Other(side), items[1..]);
            Sides(t) && Ending(t)
  {
    var items, e := From(s, Other(side)), At(s, side);
    ReceivedStaysUp(e, items[0]);
    hide Received;
    hide Linkages;
    hide Agreement;
    AdvanceKeepsEnding(s, side, Received(e, items[0]), items[1..]);
    hide Ending;
  }

  lemma ReceiveStep(s: System, closer: Side, side: Side)
    requires Inv(s, closer) && Enabled(s, side, Receive)
    ensures Inv(Next(s, side, Receive), closer)
  {
    NextReceives(s, side);
    hide Next;
    hide Received;
    ReceivedAgrees(s, closer, side);
    hide Agreement;
    ReceivedKeepsLinkages(s, closer, side);
    hide Linkages;
    ReceivedSides(s, closer, side);
    hide Sides;
    hide Ending;
    hide Put;
    hide PutFrom;
  }

  lemma ResolveStep(s: System, closer: Side, side: Side)
    requires Inv(s, closer) && Enabled(s, side, CloseResolves)
    ensures Inv(Next(s, side, CloseResolves), closer)
  {
    var e := At(s, side);
    var e' := e.(closeFrameSent := true);
    assert Own(e) by { hide Linked; }
    FlagsKeepLinkages(s, side, true, e.ended, e.readyState, e.emitted);
    WriteAgrees(s, closer, side, e', side, From(s, side));
    EndingKept(s, side, e', From(s, side));
    hide Linkages;
    hide Agreement;
    hide Ending;
  }

  /** When the server may end the stream, both closes are on the wire. */
  lemma BothClosesWritten(s: System, closer: Side)
    requires Inv(s, closer) && Enabled(s, ServerSide, End)
    ensures s.server.closeWritten && s.client.closeWritten
  {
    HeardClose(s.client, s.toServer, s.server);
    if closer == ServerSide {
      assert s.client.closeFrameReceived;
      HeardClose(s.server, s.toClient, s.client);
    }
    hide Linked;
    hide CallsOk;
    hide HasClose;
  }

  lemma NextEnds(s: System)
    requires Enabled(s, ServerSide, End)
    ensures Next(s, ServerSide, End) == PutFrom(Put(s, ServerSide, s.server.(ended := true)), ServerSide, s.toClient)
    ensures Next(s, ServerSide, End) == Put(s, ServerSide, s.server.(ended := true))
  {
  }

  lemma EndKeepsLinkages(s: System)
    requires Linkages(s)
    ensures Linkages(Put(s, ServerSide, s.server.(ended := true)))
  {
    var e := s.server;
    SideLinks(s, ServerSide);
    assert e.closeCalled ==> !e.readyState.Open? by { hide Linked; }
    hide Own;
    hide Linked;
    FlagsKeepLinkages(s, ServerSide, e.closeFrameSent, true, e.readyState, e.emitted);
    hide Linkages;
  }

  lemma StreamEnds(s: System)
    requires Ending(s) && s.server.closeWritten && s.client.closeWritten && s.server.closeFrameReceived
    ensures Ending(Put(s, ServerSide, s.server.(ended := true)))
  {
  }

  lemma EndStep(s: System, closer: Side)
    requires Inv(s, closer) && Enabled(s, ServerSide, End)
    ensures Inv(Next(s, ServerSide, End), closer)
  {
    BothClosesWritten(s, closer);
    NextEnds(s);
    hide Next;
    EndKeepsLinkages(s);
    hide Linkages;
    WriteAgrees(s, closer, ServerSide, s.server.(ended := true), ServerSide, s.toClient);
    hide Agreement;
    StreamEnds(s);
    hide Ending;
  }

  lemma SocketEnds(s: System, side: Side, e: Endpoint)
    requires Ending(s) && Enabled(s, side, SocketCloses) && e.ended == At(s, side).ended
    requires e.closeWritten == At(s, side).closeWritten && e.closeFrameReceived == At(s, side).closeFrameReceived
    ensures Ending(PutFrom(Put(s, side, e), side, From(s, side)))
  {
  }

  lemma NextCloses(s: System, side: Side)
    requires Enabled(s, side, SocketCloses)
    ensures Next(s, side, SocketCloses) == PutFrom(Put(s, side, SocketClosing(At(s, side))), side, From(s, side))
    ensures Next(s, side, SocketCloses) == Put(s, side, SocketClosing(At(s, side)))
  {
    hide SocketClosing;
  }

  lemma SocketStep(s: System, closer: Side, side: Side)
    requires Inv(s, closer) && Enabled(s, side, SocketCloses)
    ensures Inv(Next(s, side, SocketCloses), closer)
  {
    var e := At(s, side);
    var e' := SocketClosing(e);
    assert Own(e) by { hide Linked; }
    FlagsKeepLinkages(s, side, e.closeFrameSent, e.ended, Closed, e'.emitted);
    WriteAgrees(s, closer, side, e', side, From(s, side));
    SocketEnds(s, side, e');
    NextCloses(s, side);
    hide Next;
    hide Linkages;
    hide Agreement;
    hide Ending;
  }

  lemma StepKeepsInv(s: System, closer: Side, side: Side, a: Action)
    requires Inv(s, closer) && Enabled(s, side, a) && (a.CallClose? ==> side == closer)
    ensures Inv(Next(s, side, a), closer)
  {
    match a
    case Send(text, data) => SendStep(s, closer, side, text, data);
    case SendPing(payload) => PingStep(s, closer, side, payload);
    case CallClose(code, reason) => CloseStep(s, closer, code, reason);
    case WriteMain => WriteStep(s, closer, side);
    case WriteControl => ControlStep(s, closer, side);
    case CloseResolves => ResolveStep(s, closer, side);
    case Receive => ReceiveStep(s, closer, side);
    case End =>
      assert side == ServerSide;
      EndStep(s, closer);
    case SocketCloses => SocketStep(s, closer, side);
    hide Inv;
  }

  lemma {:induction false} RunKeepsInv(s: System, closer: Side, steps: seq<Step>)
    requires Inv(s, closer) && Possible(s, steps) && OneCloser(closer, steps)
    ensures Inv(After(s, steps), closer)
    decreases |steps|
  {
    hide Inv;
    hide Enabled;
    hide Next;
    if steps != [] {
      StepKeepsInv(s, closer, steps[0].side, steps[0].action);
      RunKeepsInv(Next(s, steps[0].side, steps[0].action), closer, steps[1..]);
    }
  }

  lemma StartInv(closer: Side)
    ensures Inv(START, closer)
  {
  }
}
