/** The reader as a pure machine: what one step of parsing does to the frame, the message and the unread bytes. */
module Decoder {
  import opened Bytes
  import opened Masking
  import opened Frames

  /** The endpoint that reads. */
  datatype Role = Client | Server

  /** `utf8` stands for the fatal UTF-8 decoder; `checkCloseCode` is cleared by a server that closes first. */
  datatype Config = Config(role: Role, checkCloseCode: bool, utf8: seq<byte> -> bool)

  /** What the reader reports to its handlers. */
  datatype Event =
    | Message(text: bool, data: seq<byte>)
    | Ping(payload: seq<byte>)
    | Pong(payload: seq<byte>)
    | Close(code: nat, reason: Option<seq<byte>>)

  const VALID_SERVER_CODES: seq<nat> := [1000, 1001, 1002, 1003, 1007, 1008, 1009, 1011, 1012, 1013, 1014]
  const VALID_CLIENT_CODES: seq<nat> := [1000, 1001, 1002, 1003, 1007, 1008, 1009, 1010]

  datatype Phase = Nothing | Header1 | Header2 | Payload

  /** The message being assembled: `#msgOpcode`, `#msgFragmented` and the concatenated `#msgPayload`. */
  datatype Assembly = Assembly(opcode: Option<bv8>, fragmented: bool, payload: seq<byte>)

  const NO_MESSAGE := Assembly(None, false, [])

  /** `control` is the payload of a control frame so far; `consumed` counts the current frame's payload bytes. */
  datatype Machine = Machine(next: Phase, head: Head, consumed: nat, control: seq<byte>, message: Assembly,
                             unread: seq<byte>, events: seq<Event>, error: Option<nat>)

  const NO_HEAD := Head(false, false, false, false, 0, false, 0, 0, 0)
  const START := Machine(Header1, NO_HEAD, 0, [], NO_MESSAGE, [], [], None)

  /** `r` continues `m` without reading further: in the same phase, or failed. */
  predicate Continues(m: Machine, r: Machine) {
    && r.unread == m.unread && r.head == m.head && r.consumed == m.consumed
    && ((r.next == m.next && r.error == m.error) || (r.next == Nothing && r.error.Some?))
  }

  function Fail(m: Machine, code: nat): Machine {
    m.(next := Nothing, error := Some(code))
  }

  function Report(m: Machine, e: Event): Machine {
    m.(events := m.events + [e])
  }

  // ---- close frames

  datatype CloseVerdict = Reject(error: nat) | Accept(close: Event)

  predicate CodeAllowed(role: Role, code: nat) {
    || code in (if role == Server then VALID_CLIENT_CODES else VALID_SERVER_CODES)
    || 3000 <= code <= 4999
  }

  function JudgeClose(cfg: Config, payload: seq<byte>): CloseVerdict {
    if |payload| >= 2 then
      var code := DecodeBE(payload[..2]);
      var hasReason := 2 < |payload| <= 125;
      if hasReason && !cfg.utf8(payload[2..]) then Reject(1007)
      else if cfg.checkCloseCode && !CodeAllowed(cfg.role, code) then Reject(1002)
      else Accept(Close(code, if hasReason then Some(payload[2..]) else None))
    else if |payload| == 1 then Reject(1002)
    else Accept(Close(1005, None))
  }

  // ---- headers

  /** The first fault a complete header shows, given whether a fragmented message is open. */
  function HeaderFault(role: Role, fragmented: bool, h: Head): Option<nat> {
    if h.rsv1 || h.rsv2 || h.rsv3 then Some(1002)
    else if IsControl(h.opcode) && (h.size7 > 125 || !h.fin) then Some(1002)
    else if role == Client && h.hasMask then Some(1002)
    else if role == Server && h.size > 0 && !h.hasMask then Some(1002)
    else if h.opcode == CONTINUATION then if fragmented then None else Some(1002)
    else if h.opcode == TEXT || h.opcode == BINARY then if fragmented then Some(1002) else None
    else if h.opcode == PING || h.opcode == PONG || h.opcode == CLOSE then None
    else Some(1002)
  }

  /** `#emitMessage`. */
  function EmitMessage(cfg: Config, m: Machine): (r: Machine)
    ensures Continues(m, r)
  {
    var text := m.message.opcode != Some(BINARY);
    if text && !cfg.utf8(m.message.payload) then Fail(m, 1007)
    else
      var m := Report(m, Message(text, m.message.payload));
      if m.head.fin then m.(message := NO_MESSAGE) else m
  }

  /** The ping, pong and close handlers, run once the control payload is complete. */
  function HandleControl(cfg: Config, m: Machine): (r: Machine)
    ensures Continues(m, r)
  {
    if m.head.opcode == PING then Report(m, Ping(m.control))
    else if m.head.opcode == PONG then Report(m, Pong(m.control))
    else if m.head.opcode == CLOSE then
      match JudgeClose(cfg, m.control)
      case Reject(code) => Fail(m, code)
      case Accept(close) => Report(m, close)
    else m
  }

  /** `#handleHeader`, after the next phase has been chosen. */
  function HandleHeader(cfg: Config, m: Machine): (r: Machine)
    requires m.error.None?
    ensures Ok(r) && r.unread == m.unread && r.head == m.head && (r.next == Payload ==> r.consumed == 0)
  {
    var h := m.head;
    var m := m.(next := if h.size > 0 then Payload else Header1, consumed := 0);
    match HeaderFault(cfg.role, m.message.fragmented, h)
    case Some(code) => Fail(m, code)
    case None =>
      if h.opcode == CONTINUATION then
        if h.size == 0 && h.fin then Consume(cfg, m, []) else m
      else if h.opcode == TEXT || h.opcode == BINARY then
        var m := m.(message := Assembly(Some(h.opcode), !h.fin, []));
        if h.size == 0 && h.fin then EmitMessage(cfg, m) else m
      else if h.size == 0 then HandleControl(cfg, m) else m
  }

  /** The phase is chosen from the new header, whatever it was. */
  lemma PhaseIsChosen(cfg: Config, m: Machine, phase: Phase)
    requires m.error.None?
    ensures HandleHeader(cfg, m.(next := phase)) == HandleHeader(cfg, m)
  {
  }

  // ---- payload

  /** Payload bytes as the application sees them: a server unmasks, the key position being the bytes consumed. */
  function Plain(role: Role, h: Head, consumed: nat, raw: seq<byte>): (data: seq<byte>)
    ensures |data| == |raw|
  {
    if role == Server then Xored(KeyOf(h.mask), consumed, raw) else raw
  }

  /** Adds unmasked payload bytes to the message or the control payload and acts on a completed one. */
  function Store(cfg: Config, m: Machine, data: seq<byte>, final: bool): (r: Machine)
    ensures Continues(m, r)
  {
    if IsData(m.head.opcode) then
      var m := m.(message := m.message.(payload := m.message.payload + data));
      if final && m.head.fin then EmitMessage(cfg, m) else m
    else
      var m := m.(control := m.control + data);
      if final && IsControl(m.head.opcode) then HandleControl(cfg, m) else m
  }

  /** `#consumePayloadChunk`. */
  function Consume(cfg: Config, m: Machine, raw: seq<byte>): (r: Machine)
    requires m.error.None? && m.consumed + |raw| <= m.head.size
    ensures r.unread == m.unread && r.head == m.head && r.consumed == m.consumed + |raw|
    ensures r.error.None? ==> r.next == if r.consumed == r.head.size then Header1 else m.next
    ensures r.error.Some? ==> r.next == Nothing
  {
    var data := Plain(cfg.role, m.head, m.consumed, raw);
    var m := m.(consumed := m.consumed + |raw|);
    var final := m.consumed == m.head.size;
    Store(cfg, if final then m.(next := Header1) else m, data, final)
  }

  // ---- steps

  /** What the phases promise: a second header part exists, and a payload is not yet complete. */
  predicate Ok(m: Machine) {
    && (m.next == Header2 ==> RestSize(m.head) > 0)
    && (m.next == Payload ==> m.consumed < m.head.size)
    && (m.next == Nothing <==> m.error.Some?)
  }

  /** `#nextSize`; a failed reader waits for infinitely many bytes. */
  function NextSize(m: Machine): nat {
    match m.next
    case Nothing => 0
    case Header1 => 2
    case Header2 => RestSize(m.head)
    case Payload => 1
  }

  predicate Ready(m: Machine) {
    m.next != Nothing && |m.unread| >= NextSize(m)
  }

  function ReadHeader1(cfg: Config, m: Machine): Machine
    requires m.next == Header1 && Ok(m) && Ready(m)
  {
    var h := FirstHead(ReadUInt16BE(m.unread[..2]));
    var m := m.(head := h, consumed := 0, control := [], unread := m.unread[2..]);
    if RestSize(h) > 0 then m.(next := Header2) else HandleHeader(cfg, m)
  }

  function ReadHeader2(cfg: Config, m: Machine): Machine
    requires m.next == Header2 && Ok(m) && Ready(m)
  {
    var n := RestSize(m.head);
    var rest := m.unread[..n];
    var m := m.(unread := m.unread[n..]);
    match RestHead(m.head, rest)
    case Refused(code) => Fail(m, code)
    case Complete(h) => HandleHeader(cfg, m.(head := h))
  }

  /** Takes `k` bytes of the payload. */
  function TakePayload(cfg: Config, m: Machine, k: nat): Machine
    requires m.error.None? && k <= |m.unread| && m.consumed + k <= m.head.size
  {
    Consume(cfg, m.(unread := m.unread[k..]), m.unread[..k])
  }

  function Available(m: Machine): nat
    requires m.consumed <= m.head.size
  {
    var left := m.head.size - m.consumed;
    if |m.unread| < left then |m.unread| else left
  }

  function Step(cfg: Config, m: Machine): (r: Machine)
    requires Ok(m) && Ready(m)
    ensures Ok(r) && |r.unread| < |m.unread|
  {
    match m.next
    case Header1 => ReadHeader1(cfg, m)
    case Header2 => ReadHeader2(cfg, m)
    case Payload => TakePayload(cfg, m, Available(m))
  }

  /** Parses until more bytes are needed or an error has stopped the reader. */
  function Drain(cfg: Config, m: Machine): (r: Machine)
    requires Ok(m)
    ensures Ok(r) && !Ready(r)
    decreases |m.unread|
  {
    if Ready(m) then Drain(cfg, Step(cfg, m)) else m
  }

  function Feed(m: Machine, bytes: seq<byte>): Machine {
    m.(unread := m.unread + bytes)
  }

  /** A sequence of chunks, each parsed as far as possible before the next arrives. */
  function FeedAll(cfg: Config, m: Machine, chunks: seq<seq<byte>>): (r: Machine)
    requires Ok(m)
    ensures Ok(r)
    decreases |chunks|
  {
    if chunks == [] then m else FeedAll(cfg, Drain(cfg, Feed(m, chunks[0])), chunks[1..])
  }
}
