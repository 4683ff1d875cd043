/** A decoder of whole byte streams, frame by frame, and its agreement with the incremental machine. */
module Reference {
  import opened Bytes
  import opened Masking
  import opened Frames
  import opened Decoder
  import Chunking

  /** One frame of a stream; `data` is the payload as transmitted. */
  datatype Frame = Frame(head: Head, data: seq<byte>)

  /** What follows the last whole frame: the beginning of a frame, or a header no reader accepts. */
  datatype Tail = Partial(bytes: seq<byte>) | Unreadable(code: nat)

  datatype Stream = Stream(frames: seq<Frame>, tail: Tail)

  /** The frames of a byte stream, by their length fields alone. */
  function Split(s: seq<byte>): Stream
    decreases |s|
  {
    match ParseHead(s)
    case Short => Stream([], Partial(s))
    case Invalid(code) => Stream([], Unreadable(code))
    case Whole(h, n) =>
      if |s| < n + h.size then Stream([], Partial(s))
      else
        var rest := Split(s[n + h.size..]);
        Stream([Frame(h, s[n..n + h.size])] + rest.frames, rest.tail)
  }

  /** What a reader knows between frames. */
  datatype Reading = Reading(message: Assembly, events: seq<Event>, error: Option<nat>)

  const NOTHING_READ := Reading(NO_MESSAGE, [], None)

  function PlainData(role: Role, f: Frame): seq<byte> {
    Plain(role, f.head, 0, f.data)
  }

  /** The message a data frame continues or begins, with the frame's data added. */
  function Extended(role: Role, message: Assembly, f: Frame): Assembly {
    var started := if f.head.opcode == CONTINUATION then message else Assembly(Some(f.head.opcode), !f.head.fin, []);
    started.(payload := started.payload + PlainData(role, f))
  }

  /** One whole frame. */
  function Take(cfg: Config, r: Reading, f: Frame): Reading {
    if r.error.Some? then r
    else
      match HeaderFault(cfg.role, r.message.fragmented, f.head)
      case Some(code) => r.(error := Some(code))
      case None =>
        var data := PlainData(cfg.role, f);
        if IsData(f.head.opcode) then
          var message := Extended(cfg.role, r.message, f);
          var text := message.opcode != Some(BINARY);
          if !f.head.fin then r.(message := message)
          else if text && !cfg.utf8(message.payload) then r.(message := message, error := Some(1007))
          else r.(message := NO_MESSAGE, events := r.events + [Message(text, message.payload)])
        else if f.head.opcode == CLOSE then
          match JudgeClose(cfg, data)
          case Reject(code) => r.(error := Some(code))
          case Accept(close) => r.(events := r.events + [close])
        else r.(events := r.events + [if f.head.opcode == PING then Ping(data) else Pong(data)])
  }

  function TakeAll(cfg: Config, r: Reading, frames: seq<Frame>): Reading
    decreases |frames|
  {
    if frames == [] then r else TakeAll(cfg, Take(cfg, r, frames[0]), frames[1..])
  }

  /** The fault of a stream whose whole frames led to `r`: theirs, or that of the header in its tail. */
  function StreamError(cfg: Config, r: Reading, tail: Tail): Option<nat> {
    if r.error.Some? then r.error
    else
      match tail
      case Unreadable(code) => Some(code)
      case Partial(bytes) =>
        var p := ParseHead(bytes);
        if p.Whole? then HeaderFault(cfg.role, r.message.fragmented, p.head) else None
  }

  // ---- agreement with the machine

  function View(m: Machine): Reading {
    Reading(m.message, m.events, m.error)
  }

  /** The machine just after the header `h` of `n` bytes. */
  function AfterHeader(cfg: Config, m: Machine, h: Head, n: nat): Machine
    requires m.error.None? && n <= |m.unread|
  {
    HandleHeader(cfg, m.(head := h, control := [], unread := m.unread[n..]))
  }

  lemma DrainHeader(cfg: Config, m: Machine)
    requires Ok(m) && m.next == Header1
    ensures var p := ParseHead(m.unread);
            && (p.Short? ==> View(Drain(cfg, m)) == View(m))
            && (p.Invalid? ==> View(Drain(cfg, m)) == View(m).(error := Some(p.code)))
            && (p.Whole? ==> p.length <= |m.unread| && Drain(cfg, m) == Drain(cfg, AfterHeader(cfg, m, p.head, p.length)))
  {
    hide HandleHeader;
    hide FirstHead;
    hide RestHead;
    hide ReadUInt16BE;
    var s := m.unread;
    if |s| >= 2 {
      var first := FirstHead(ReadUInt16BE(s[..2]));
      var k := RestSize(first);
      var m1 := m.(head := first, consumed := 0, control := [], unread := s[2..]);
      if k == 0 {
        assert s[2..2] == [];
        NoRest(first);
        HeaderForgets(cfg, m, m1, first, s[2..]);
        assert Drain(cfg, m) == Drain(cfg, HandleHeader(cfg, m1));
      } else {
        var m2 := m1.(next := Header2);
        assert Step(cfg, m) == m2;
        assert Drain(cfg, m) == Drain(cfg, m2);
        if |s| >= 2 + k {
          assert s[2..][..k] == s[2..2 + k] && s[2..][k..] == s[2 + k..];
          match RestHead(first, s[2..2 + k])
          case Refused(code) =>
            assert Drain(cfg, m2) == Step(cfg, m2);
          case Complete(h) =>
            HeaderForgets(cfg, m, m2, h, s[2 + k..]);
        }
      }
    }
  }

  lemma NoRest(first: Head)
    requires RestSize(first) == 0
    ensures RestHead(first, []) == Complete(first)
  {
  }

  /** The header handler starts the frame afresh: it does not look at the phase, the count or the old header. */
  lemma HeaderForgets(cfg: Config, a: Machine, b: Machine, h: Head, u: seq<byte>)
    requires a.error.None? && b == a.(next := b.next, head := b.head, consumed := b.consumed, control := [], unread := b.unread)
    ensures HandleHeader(cfg, a.(head := h, control := [], unread := u)) == HandleHeader(cfg, b.(head := h, unread := u))
  {
  }

  /** Where a header leaves the reader: failed, between frames, or before the payload with nothing reported. */
  lemma HeaderOutcome(cfg: Config, m: Machine, h: Head, n: nat)
    requires m.error.None? && n <= |m.unread|
    ensures var r := AfterHeader(cfg, m, h, n);
            match HeaderFault(cfg.role, m.message.fragmented, h)
            case Some(code) => View(r) == View(m).(error := Some(code))
            case None =>
              && (h.size == 0 ==> View(r) == Take(cfg, View(m), Frame(h, [])) && (r.error.None? ==> r.next == Header1))
              && (h.size > 0 ==> r.next == Payload && r.error.None? && r.events == m.events && r.consumed == 0)
  {
    hide JudgeClose;
    NothingToUnmask(cfg.role, h);
    hide Plain;
  }

  lemma NothingToUnmask(role: Role, h: Head)
    ensures Plain(role, h, 0, []) == []
  {
  }

  /** A whole payload taken at once. */
  lemma PayloadOutcome(cfg: Config, m: Machine, h: Head, n: nat)
    requires m.error.None? && n + h.size <= |m.unread| && h.size > 0
    requires HeaderFault(cfg.role, m.message.fragmented, h).None?
    ensures var a := AfterHeader(cfg, m, h, n);
            && Ok(a) && a.next == Payload && Available(a) == h.size
            && var r := TakePayload(cfg, a, h.size);
            && View(r) == Take(cfg, View(m), Frame(h, m.unread[n..n + h.size]))
            && (r.error.None? ==> r.next == Header1)
            && r.unread == m.unread[n + h.size..]
  {
    hide JudgeClose;
    hide Plain;
    assert m.unread[n..][..h.size] == m.unread[n..n + h.size];
    assert m.unread[n..][h.size..] == m.unread[n + h.size..];
    var raw := m.unread[n..n + h.size];
    var data := Plain(cfg.role, h, 0, raw);
    assert [] + data == data;
  }

  /** The machine just after a whole frame. */
  function AfterFrame(cfg: Config, m: Machine, h: Head, n: nat): Machine
    requires m.error.None? && n + h.size <= |m.unread|
  {
    var a := AfterHeader(cfg, m, h, n);
    if a.next == Payload then TakePayload(cfg, a, h.size) else a
  }

  lemma PayloadAtOnce(cfg: Config, a: Machine)
    requires Ok(a) && a.next == Payload && a.consumed == 0 && Available(a) == a.head.size > 0
    ensures Drain(cfg, a) == Drain(cfg, TakePayload(cfg, a, a.head.size))
  {
    hide Consume;
  }

  lemma DrainFrame(cfg: Config, m: Machine, h: Head, n: nat)
    requires Ok(m) && m.next == Header1
    requires ParseHead(m.unread) == Whole(h, n) && n + h.size <= |m.unread|
    ensures var r := AfterFrame(cfg, m, h, n);
            && Ok(r) && Drain(cfg, m) == Drain(cfg, r)
            && View(r) == Take(cfg, View(m), Frame(h, m.unread[n..n + h.size]))
            && (r.error.None? ==> r.next == Header1 && r.unread == m.unread[n + h.size..])
  {
    hide HandleHeader;
    hide Consume;
    hide Take;
    hide ParseHead;
    hide Drain;
    hide HeaderFault;
    var a := AfterHeader(cfg, m, h, n);
    DrainHeader(cfg, m);
    HeaderOutcome(cfg, m, h, n);
    if HeaderFault(cfg.role, m.message.fragmented, h).Some? {
      FaultyHeader(cfg, View(m), Frame(h, m.unread[n..n + h.size]));
    } else if h.size == 0 {
      assert m.unread[n..n] == [];
    } else {
      PayloadOutcome(cfg, m, h, n);
      PayloadAtOnce(cfg, a);
    }
  }

  lemma FaultyHeader(cfg: Config, r: Reading, f: Frame)
    requires r.error.None? && HeaderFault(cfg.role, r.message.fragmented, f.head).Some?
    ensures Take(cfg, r, f) == r.(error := HeaderFault(cfg.role, r.message.fragmented, f.head))
  {
  }

  lemma {:induction false} TakeAllFailed(cfg: Config, r: Reading, frames: seq<Frame>)
    requires r.error.Some?
    ensures TakeAll(cfg, r, frames) == r
    decreases |frames|
  {
    if frames != [] {
      TakeAllFailed(cfg, r, frames[1..]);
    }
  }

  /** The incremental machine reports what the whole-stream decoder reports, and fails exactly when and as it does. */
  lemma {:induction false} MachineAgrees(cfg: Config, m: Machine)
    requires Ok(m) && m.next == Header1
    ensures var stream := Split(m.unread);
            var r := TakeAll(cfg, View(m), stream.frames);
            && Drain(cfg, m).events == r.events
            && Drain(cfg, m).error == StreamError(cfg, r, stream.tail)
    decreases |m.unread|
  {
    hide HandleHeader;
    hide Consume;
    hide Take;
    hide Step;
    hide ParseHead;
    var s := m.unread;
    DrainHeader(cfg, m);
    if ParseHead(s).Whole? {
      var h, n := ParseHead(s).head, ParseHead(s).length;
      HeadNotEmpty(s);
      if |s| < n + h.size {
        HeaderOutcome(cfg, m, h, n);
        if HeaderFault(cfg.role, m.message.fragmented, h).None? {
          PartialPayload(cfg, AfterHeader(cfg, m, h, n));
        }
      } else {
        DrainFrame(cfg, m, h, n);
        var f := Frame(h, s[n..n + h.size]);
        var r := AfterFrame(cfg, m, h, n);
        var rest := Split(s[n + h.size..]);
        assert Split(s).frames[0] == f && Split(s).frames[1..] == rest.frames;
        if r.error.None? {
          MachineAgrees(cfg, r);
        } else {
          TakeAllFailed(cfg, View(r), rest.frames);
        }
      }
    }
  }

  lemma HeadNotEmpty(s: seq<byte>)
    requires ParseHead(s).Whole?
    ensures 2 <= ParseHead(s).length <= |s|
  {
  }

  /** An incomplete payload reports nothing. */
  lemma PartialPayload(cfg: Config, m: Machine)
    requires Ok(m) && m.next == Payload && m.consumed + |m.unread| < m.head.size
    ensures Drain(cfg, m).events == m.events && Drain(cfg, m).error.None?
  {
    hide Plain;
    if Ready(m) {
      var r := Step(cfg, m);
      assert m.unread[..|m.unread|] == m.unread;
      assert r.events == m.events && r.next == Payload && r.unread == [];
    }
  }

  /** The same for a reader fed from the start in any chunks. */
  lemma ReaderAgrees(cfg: Config, chunks: seq<seq<byte>>)
    ensures var stream := Split(Flatten(chunks));
            var r := TakeAll(cfg, NOTHING_READ, stream.frames);
            var m := FeedAll(cfg, START, chunks);
            m.events == r.events && m.error == StreamError(cfg, r, stream.tail)
  {
    hide Drain;
    ChunksAtOnce(cfg, chunks);
    MachineAgrees(cfg, Feed(START, Flatten(chunks)));
  }

  lemma ChunksAtOnce(cfg: Config, chunks: seq<seq<byte>>)
    ensures FeedAll(cfg, START, chunks) == Drain(cfg, Feed(START, Flatten(chunks)))
    ensures Feed(START, Flatten(chunks)).unread == Flatten(chunks)
  {
    Chunking.ChunkingIrrelevant(cfg, START, chunks);
  }

}
