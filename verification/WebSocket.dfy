/** `WebSocket`: what an endpoint's calls and event handlers do to its close state and to what it has still to send. */
module WebSockets {
  import opened Bytes

  datatype ReadyState = Open | Closing | Closed

  /** What travels: whole messages and control frames, a reason as its bytes. */
  datatype Item =
    | Data(text: bool, data: seq<byte>)
    | CloseItem(code: nat, reason: Option<seq<byte>>)
    | PingItem(payload: seq<byte>)
    | PongItem(payload: seq<byte>)

  /** The close event. */
  datatype Outcome = Outcome(code: nat, reason: Option<seq<byte>>, wasClean: bool)

  /** The fields of `WebSocket`, of its reader and writer. `outbox` holds the calls that wait for the message mutex, a close
      staying at its front for good once `closeWritten`; `controls` the control frames not yet written. `echoing` tells that
      `#receiveClose` awaits a `close` of its own, `ended` that the server has ended the stream, `failed` and `refused` that
      the reader rejected a close or the writer threw at one; `emitted` is the close event. `issued` and `received` record
      the run: what the calls up to a close amount to, and what the reader has passed on. */
  datatype Endpoint = Endpoint(isServer: bool, readyState: ReadyState, closeCalled: bool, closeFrameSent: bool,
                               closeFrameReceived: bool, closeCode: Option<nat>, closeReason: Option<seq<byte>>,
                               writerChecks: bool, readerChecks: bool, outbox: seq<Item>, closeWritten: bool,
                               controls: seq<Item>, echoing: bool, ended: bool, failed: bool, refused: bool,
                               emitted: Option<Outcome>, issued: seq<Item>, received: seq<Item>)

  function Opened(isServer: bool): Endpoint {
    Endpoint(isServer, Open, false, false, false, None, None, true, true, [], false, [], false, false, false, false, None, [], [])
  }

  /** A close as it travels: an empty reason is none. */
  function CloseFor(code: nat, reason: Option<seq<byte>>): Item {
    CloseItem(code, if reason == Some([]) then None else reason)
  }

  function Sending(e: Endpoint, text: bool, data: seq<byte>): Endpoint {
    var item := Data(text, data);
    e.(outbox := e.outbox + [item], issued := if e.closeCalled then e.issued else e.issued + [item])
  }

  /** `close`, up to its `await`. */
  function CallingClose(e: Endpoint, code: nat, reason: Option<seq<byte>>): Endpoint {
    if e.closeCalled then e
    else
      var item := CloseFor(code, reason);
      e.(closeCalled := true, readyState := Closing, readerChecks := e.readerChecks && !e.isServer,
         outbox := e.outbox + [item], issued := e.issued + [item])
  }

  /** `#receiveClose`, up to its `await`. */
  function ReceivingClose(e: Endpoint, code: nat, reason: Option<seq<byte>>): Endpoint {
    if e.closeFrameReceived then e
    else
      var e1 := e.(closeFrameReceived := true, readyState := Closing, closeCode := Some(code), closeReason := reason,
                   writerChecks := false, echoing := !e.closeCalled);
      CallingClose(e1, if code == 1005 then 1000 else code, reason)
  }

  /** `#receivePing`: pings are answered until a close is received. */
  function ReceivingPing(e: Endpoint, payload: seq<byte>): Endpoint {
    if e.closeFrameReceived then e else e.(controls := e.controls + [PongItem(payload)])
  }

  /** The socket's `close` event. */
  function SocketClosing(e: Endpoint): Endpoint {
    e.(readyState := Closed,
       emitted := Some(Outcome(if e.closeCode.Some? && e.closeCode.value != 0 then e.closeCode.value else 1006,
                               e.closeReason, e.closeFrameReceived && e.closeFrameSent)))
  }

  /** A first `close` queues its frame behind all messages and frees a server's reader from checking codes. */
  lemma CloseIsQueued(e: Endpoint, code: nat, reason: Option<seq<byte>>)
    ensures var r := CallingClose(e, code, reason);
            && r.closeCalled
            && (e.closeCalled ==> r.outbox == e.outbox && r.readerChecks == e.readerChecks)
            && (!e.closeCalled ==> r.outbox == e.outbox + [CloseItem(code, if reason == Some([]) then None else reason)]
                                   && r.readyState == Closing && r.readerChecks == (e.readerChecks && !e.isServer))
            && r.writerChecks == e.writerChecks && r.closeFrameReceived == e.closeFrameReceived && r.isServer == e.isServer
            && r.controls == e.controls && r.closeFrameSent == e.closeFrameSent
  {
    if !e.closeCalled {
      FirstClose(e, code, reason);
      CloseLeaves(e, code, reason);
      hide CallingClose;
    }
  }

  lemma FirstClose(e: Endpoint, code: nat, reason: Option<seq<byte>>)
    requires !e.closeCalled
    ensures var r := CallingClose(e, code, reason);
            && r.closeCalled && r.readyState == Closing && r.readerChecks == (e.readerChecks && !e.isServer)
            && r.outbox == e.outbox + [CloseItem(code, if reason == Some([]) then None else reason)]
  {
  }

  lemma CloseLeaves(e: Endpoint, code: nat, reason: Option<seq<byte>>)
    requires !e.closeCalled
    ensures var r := CallingClose(e, code, reason);
            && r.writerChecks == e.writerChecks && r.closeFrameReceived == e.closeFrameReceived && r.isServer == e.isServer
            && r.controls == e.controls && r.closeFrameSent == e.closeFrameSent
  {
    hide CloseFor;
  }

  /** The first Close received is noted and echoed with its code and reason, unless `close` was called already; 1005, which
      stands for no code, is echoed as 1000. A second one does nothing. */
  lemma CloseIsEchoed(e: Endpoint, code: nat, reason: Option<seq<byte>>)
    ensures var r := ReceivingClose(e, code, reason);
            && r.closeFrameReceived
            && (e.closeFrameReceived ==> r == e)
            && (!e.closeFrameReceived ==>
                  && r.closeCode == Some(code) && r.closeReason == reason && !r.writerChecks && r.closeCalled
                  && r.readyState == Closing && (r.echoing <==> !e.closeCalled)
                  && r.outbox == e.outbox + (if e.closeCalled then []
                                             else [CloseItem(if code == 1005 then 1000 else code,
                                                             if reason == Some([]) then None else reason)])
                  && r.readerChecks == (if e.closeCalled then e.readerChecks else e.readerChecks && !e.isServer))
  {
    if !e.closeFrameReceived {
      var e1 := e.(closeFrameReceived := true, readyState := Closing, closeCode := Some(code), closeReason := reason,
                   writerChecks := false, echoing := !e.closeCalled);
      CloseIsQueued(e1, if code == 1005 then 1000 else code, reason);
      CloseIsNoted(e1, if code == 1005 then 1000 else code, reason);
      hide CallingClose;
      assert e.outbox + [] == e.outbox;
    }
  }

  lemma CloseIsNoted(e: Endpoint, code: nat, reason: Option<seq<byte>>)
    ensures var r := CallingClose(e, code, reason);
            && r.closeCode == e.closeCode && r.closeReason == e.closeReason && r.echoing == e.echoing
            && (e.readyState == Closing ==> r.readyState == Closing)
  {
    hide CloseFor;
  }

  /** The same as an object whose methods are the calls and handlers. */
  class WebSocket {
    const isServer: bool
    var readyState: ReadyState
    var closeCalled: bool
    var closeFrameSent: bool
    var closeFrameReceived: bool
    var closeCode: Option<nat>
    var closeReason: Option<seq<byte>>
    // #protocolWriter.checkCloseCode, #protocolReader.checkCloseCode
    var writerChecks: bool
    var readerChecks: bool
    // the writer's message and frame mutexes
    var outbox: seq<Item>
    var closeWritten: bool
    var controls: seq<Item>
    var echoing: bool
    var ended: bool
    var failed: bool
    var refused: bool
    var emitted: Option<Outcome>
    ghost var issued: seq<Item>
    ghost var received: seq<Item>

    ghost function Abs(): Endpoint
      reads this
    {
      Endpoint(isServer, readyState, closeCalled, closeFrameSent, closeFrameReceived, closeCode, closeReason, writerChecks,
               readerChecks, outbox, closeWritten, controls, echoing, ended, failed, refused, emitted, issued, received)
    }

    /** `#start` */
    constructor (isServer: bool)
      ensures Abs() == Opened(isServer)
    {
      this.isServer := isServer;
      readyState := Open;
      closeCalled, closeFrameSent, closeFrameReceived := false, false, false;
      closeCode, closeReason := None, None;
      writerChecks, readerChecks := true, true;
      outbox, closeWritten, controls := [], false, [];
      echoing, ended, failed, refused, emitted := false, false, false, false, None;
      issued, received := [], [];
    }

    /** The message mutex is asked for. */
    method Queue(item: Item)
      modifies `outbox, `issued
      ensures Abs() == old(Abs()).(outbox := old(outbox) + [item], issued := old(issued) + [item])
    {
      outbox := outbox + [item];
      issued := issued + [item];
    }

    method Close(code: nat, reason: Option<seq<byte>>)
      modifies this
      ensures Abs() == CallingClose(old(Abs()), code, reason)
    {
      hide CloseFor;
      if closeCalled {
        return;
      }
      closeCalled := true;
      readyState := Closing;
      if isServer {
        readerChecks := false;
      }
      Queue(CloseFor(code, reason));
    }

    /** What `#receiveClose` notes of the close. */
    method NoteClose(code: nat, reason: Option<seq<byte>>)
      modifies `closeCode, `closeReason, `writerChecks
      ensures Abs() == old(Abs()).(closeCode := Some(code), closeReason := reason, writerChecks := false)
    {
      closeCode := Some(code);
      closeReason := reason;
      writerChecks := false;
    }

    method ReceiveClose(code: nat, reason: Option<seq<byte>>)
      modifies this
      ensures Abs() == ReceivingClose(old(Abs()), code, reason)
    {
      hide CallingClose;
      if closeFrameReceived {
        return;
      }
      closeFrameReceived := true;
      readyState := Closing;
      echoing := !closeCalled;
      NoteClose(code, reason);
      Close(if code == 1005 then 1000 else code, reason);
    }

    method ReceivePing(payload: seq<byte>)
      modifies this
      ensures Abs() == ReceivingPing(old(Abs()), payload)
    {
      if closeFrameReceived {
        return;
      }
      controls := controls + [PongItem(payload)];
    }

    method SocketClosed()
      modifies this
      ensures Abs() == SocketClosing(old(Abs()))
    {
      readyState := Closed;
      var code := 1006;
      if closeCode.Some? && closeCode.value != 0 {
        code := closeCode.value;
      }
      emitted := Some(Outcome(code, closeReason, closeFrameReceived && closeFrameSent));
    }
  }
}
