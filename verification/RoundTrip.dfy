/** End to end: what a writer's callers sent in any interleaving is what the opposite reader reports, in whatever chunks the
    bytes arrive. */
module RoundTrip {
  import opened Bytes
  import opened Masking
  import opened Frames
  import opened Decoder
  import opened Reference
  import opened Writer
  import opened Interleaving
  import opened WriterSafety
  import opened Calls
  import ControlFrames
  import Legality

  // ---- the wire is cut back into its frames

  predicate Writable(s: Sent) {
    s.frame.opcode in {CONTINUATION, TEXT, BINARY, CLOSE, PING, PONG} && |s.frame.payload| <= MAX_SAFE_INTEGER
  }

  function HeadFor(s: Sent): Head {
    HeadOf(s.frame.fin, false, s.frame.opcode, s.mask, |s.frame.payload|)
  }

  function FrameFor(s: Sent): Frame {
    Frame(HeadFor(s), BodyBytes(s))
  }

  function FramesFor(log: seq<Sent>): (fs: seq<Frame>)
    ensures |fs| == |log|
  {
    seq(|log|, i requires 0 <= i < |log| => FrameFor(log[i]))
  }

  lemma HeadReadBack(s: Sent, later: seq<byte>)
    requires Writable(s)
    ensures ParseHead(HeadBytes(s) + later) == Whole(HeadFor(s), |HeadBytes(s)|)
  {
    assert s.frame.opcode < 16;
    HeaderRoundTrip(s.frame.fin, false, s.frame.opcode, s.mask, |s.frame.payload|, later);
  }

  lemma FrameReadBack(s: Sent, later: seq<byte>)
    requires Writable(s)
    ensures var wire := FrameBytes(s) + later;
            && wire == HeadBytes(s) + (BodyBytes(s) + later)
            && ParseHead(wire) == Whole(HeadFor(s), |HeadBytes(s)|)
            && |wire| >= |HeadBytes(s)| + |s.frame.payload|
            && wire[|HeadBytes(s)|..|HeadBytes(s)| + |s.frame.payload|] == BodyBytes(s)
            && wire[|HeadBytes(s)| + |s.frame.payload|..] == later
  {
    hide HeaderBytes;
    hide BodyBytes;
    hide ParseHead;
    HeadReadBack(s, BodyBytes(s) + later);
  }

  lemma {:induction false} WireReadBack(log: seq<Sent>, later: seq<byte>)
    requires forall i :: 0 <= i < |log| ==> Writable(log[i])
    ensures Split(WireBytes(log) + later) == Stream(FramesFor(log) + Split(later).frames, Split(later).tail)
    decreases |log|
  {
    hide FrameBytes;
    hide HeadBytes;
    hide BodyBytes;
    hide ParseHead;
    hide Writable;
    if log == [] {
      assert [] + later == later && FramesFor(log) == [];
      assert [] + Split(later).frames == Split(later).frames;
    } else {
      var wire, rest := WireBytes(log) + later, WireBytes(log[1..]) + later;
      assert wire == FrameBytes(log[0]) + rest;
      FrameReadBack(log[0], rest);
      assert |HeadBytes(log[0])| > 0 by { HeadNotEmpty(wire); }
      WireReadBack(log[1..], later);
      assert FramesFor(log) == [FrameFor(log[0])] + FramesFor(log[1..]);
      Assoc([FrameFor(log[0])], FramesFor(log[1..]), Split(later).frames);
    }
  }

  lemma NothingToSplit()
    ensures Split([]) == Stream([], Partial([]))
  {
  }

  /** The header of a frame whose payload is still to come. */
  lemma HeaderToSplit(s: Sent)
    requires Writable(s) && s.frame.payload != []
    ensures Split(HeadBytes(s)) == Stream([], Partial(HeadBytes(s)))
    ensures ParseHead(HeadBytes(s)) == Whole(HeadFor(s), |HeadBytes(s)|)
  {
    HeadReadBack(s, []);
    hide HeaderBytes;
    hide ParseHead;
    assert HeadBytes(s) + [] == HeadBytes(s);
  }

  // ---- reading written frames, whatever their masks

  /** The reader at the other end. */
  predicate Opposite(setup: Setup, cfg: Config) {
    cfg.role == if setup.isClient then Server else Client
  }

  /** A frame with the mask 0, or none from a server. */
  function Plainly(setup: Setup, f: OutFrame): Sent {
    Sent(f, if setup.isClient then Some(0) else None)
  }

  lemma PayloadReadBack(setup: Setup, cfg: Config, s: Sent)
    requires Opposite(setup, cfg) && MaskFits(setup, s.mask)
    ensures PlainData(cfg.role, FrameFor(s)) == s.frame.payload
  {
    if setup.isClient {
      XoredTwice(KeyOf(s.mask.value), 0, s.frame.payload);
    }
  }

  /** Which mask was drawn makes no difference to the reader. */
  lemma MaskIrrelevant(setup: Setup, cfg: Config, r: Reading, s: Sent)
    requires Opposite(setup, cfg) && MaskFits(setup, s.mask)
    ensures HeaderFault(cfg.role, r.message.fragmented, HeadFor(s)) == HeaderFault(cfg.role, r.message.fragmented, HeadFor(Plainly(setup, s.frame)))
    ensures Take(cfg, r, FrameFor(s)) == Take(cfg, r, FrameFor(Plainly(setup, s.frame)))
  {
    var p := Plainly(setup, s.frame);
    PayloadReadBack(setup, cfg, s);
    PayloadReadBack(setup, cfg, p);
    hide BodyBytes;
    hide PlainData;
    hide JudgeClose;
  }

  function ReadFrame(setup: Setup, cfg: Config, r: Reading, f: OutFrame): Reading {
    Take(cfg, r, FrameFor(Plainly(setup, f)))
  }

  function ReadFrames(setup: Setup, cfg: Config, r: Reading, fs: seq<OutFrame>): Reading
    decreases |fs|
  {
    if fs == [] then r else ReadFrames(setup, cfg, ReadFrame(setup, cfg, r, fs[0]), fs[1..])
  }

  lemma {:induction false} LogIsRead(setup: Setup, cfg: Config, r: Reading, log: seq<Sent>)
    requires Opposite(setup, cfg) && forall i :: 0 <= i < |log| ==> MaskFits(setup, log[i].mask)
    ensures TakeAll(cfg, r, FramesFor(log)) == ReadFrames(setup, cfg, r, LogFrames(log))
    decreases |log|
  {
    hide Take;
    hide FrameFor;
    hide MaskFits;
    if log != [] {
      MaskIrrelevant(setup, cfg, r, log[0]);
      assert FramesFor(log)[1..] == FramesFor(log[1..]) && LogFrames(log)[1..] == LogFrames(log[1..]);
      LogIsRead(setup, cfg, Take(cfg, r, FrameFor(log[0])), log[1..]);
    }
  }

  lemma {:induction false} ReadConcat(setup: Setup, cfg: Config, r: Reading, a: seq<OutFrame>, b: seq<OutFrame>)
    ensures ReadFrames(setup, cfg, r, a + b) == ReadFrames(setup, cfg, ReadFrames(setup, cfg, r, a), b)
    decreases |a|
  {
    hide ReadFrame;
    if a == [] {
      assert a + b == b;
    } else {
      assert (a + b)[1..] == a[1..] + b;
      ReadConcat(setup, cfg, ReadFrame(setup, cfg, r, a[0]), a[1..], b);
    }
  }

  /** Reading on neither loses events nor clears an error. */
  lemma {:induction false} ReadGrows(setup: Setup, cfg: Config, r: Reading, fs: seq<OutFrame>)
    ensures r.events <= ReadFrames(setup, cfg, r, fs).events
    ensures ReadFrames(setup, cfg, r, fs).error.None? ==> r.error.None?
    decreases |fs|
  {
    if fs != [] {
      var f := FrameFor(Plainly(setup, fs[0]));
      ControlFrames.TakeAdds(cfg, r, f);
      FailedStays(cfg, r, f);
      ReadGrows(setup, cfg, ReadFrame(setup, cfg, r, fs[0]), fs[1..]);
      hide Take;
    }
  }

  lemma ReadPrefix(setup: Setup, cfg: Config, r: Reading, a: seq<OutFrame>, b: seq<OutFrame>)
    requires a <= b
    ensures ReadFrames(setup, cfg, r, a).events <= ReadFrames(setup, cfg, r, b).events
    ensures ReadFrames(setup, cfg, r, b).error.None? ==> ReadFrames(setup, cfg, r, a).error.None?
  {
    hide ReadFrames;
    assert b == a + b[|a|..];
    ReadConcat(setup, cfg, r, a, b[|a|..]);
    ReadGrows(setup, cfg, ReadFrames(setup, cfg, r, a), b[|a|..]);
  }

  lemma FailedStays(cfg: Config, r: Reading, f: Frame)
    ensures r.error.Some? ==> Take(cfg, r, f) == r
  {
  }

  // ---- messages

  /** What a call makes the reader report: a message as it is, a close with its code and, if there is any, its reason. */
  function EventOf(setup: Setup, call: Call): Event {
    match call
    case SendMessage(text, data) => Message(text, data)
    case CloseWith(code, reason) =>
      var text := ReasonSent(setup, reason);
      Close(code, if text == [] then None else Some(text))
  }

  function EventsOf(setup: Setup, calls: seq<Call>): seq<Event> {
    if calls == [] then [] else EventsOf(setup, calls[..|calls| - 1]) + [EventOf(setup, calls[|calls| - 1])]
  }

  /** Text is UTF-8; a close has a code the reader allows and a UTF-8 reason. */
  predicate Readable(setup: Setup, cfg: Config, call: Call) {
    match call
    case SendMessage(text, data) => text ==> cfg.utf8(data)
    case CloseWith(code, reason) =>
      && (cfg.checkCloseCode ==> CodeAllowed(cfg.role, code))
      && (ReasonSent(setup, reason) != [] ==> cfg.utf8(ReasonSent(setup, reason)))
  }

  /** What the writer itself has made sure of. */
  predicate Checked(setup: Setup, call: Call) {
    match call
    case SendMessage(_, data) => |data| <= MAX_SAFE_INTEGER
    case CloseWith(code, reason) => code < 0x1_0000 && |ReasonSent(setup, reason)| <= 123
  }

  /** The reader between messages, or inside one of which `data[..from]` has arrived. */
  predicate Inside(r: Reading, text: bool, data: seq<byte>, from: nat)
    requires from <= |data|
  {
    && r.error.None?
    && if from == 0 then !r.message.fragmented
       else r.message == Assembly(Some(if text then TEXT else BINARY), true, data[..from])
  }

  lemma FragmentIsRead(setup: Setup, cfg: Config, r: Reading, text: bool, data: seq<byte>, max: nat, from: nat)
    requires Opposite(setup, cfg) && from <= |data| && max >= 1 && (from == |data| ==> from == 0)
    requires Inside(r, text, data, from) && (text ==> cfg.utf8(data))
    ensures var r' := ReadFrame(setup, cfg, r, FragmentAt(text, data, max, from));
            if from + max >= |data| then r' == r.(message := NO_MESSAGE, events := r.events + [Message(text, data)])
            else Inside(r', text, data, from + max) && r'.events == r.events
  {
    hide HeaderFault;
    hide PlainData;
    hide BodyBytes;
    hide JudgeClose;
    var f := FragmentAt(text, data, max, from);
    var s := Plainly(setup, f);
    PayloadReadBack(setup, cfg, s);
    DataHeadFits(setup, cfg, f, r.message.fragmented);
    hide Plainly;
    assert data[..from] + f.payload == if from + max >= |data| then data else data[..from + max];
    assert [] + f.payload == f.payload;
  }

  lemma DataHeadFits(setup: Setup, cfg: Config, f: OutFrame, open: bool)
    requires Opposite(setup, cfg) && IsData(f.opcode) && open == (f.opcode == CONTINUATION)
    ensures HeaderFault(cfg.role, open, HeadFor(Plainly(setup, f))).None?
  {
  }

  lemma {:induction false} MessageIsRead(setup: Setup, cfg: Config, r: Reading, text: bool, data: seq<byte>, from: nat)
    requires Opposite(setup, cfg) && from <= |data| && setup.maxFragmentSize >= 1 && (from == |data| ==> from == 0)
    requires Inside(r, text, data, from) && (text ==> cfg.utf8(data))
    ensures ReadFrames(setup, cfg, r, FragmentsFrom(text, data, setup.maxFragmentSize, from))
         == r.(message := NO_MESSAGE, events := r.events + [Message(text, data)])
    decreases |data| - from
  {
    var f := FragmentAt(text, data, setup.maxFragmentSize, from);
    FragmentIsRead(setup, cfg, r, text, data, setup.maxFragmentSize, from);
    hide ReadFrame;
    hide FragmentAt;
    var next := from + setup.maxFragmentSize;
    if next < |data| {
      var r' := ReadFrame(setup, cfg, r, f);
      MessageIsRead(setup, cfg, r', text, data, next);
      assert FragmentsFrom(text, data, setup.maxFragmentSize, from)[1..] == FragmentsFrom(text, data, setup.maxFragmentSize, next);
    } else {
      assert FragmentsFrom(text, data, setup.maxFragmentSize, from) == [f];
      assert ReadFrames(setup, cfg, r, [f]) == ReadFrames(setup, cfg, ReadFrame(setup, cfg, r, f), []);
    }
  }

  lemma ClosePayloadParts(setup: Setup, code: nat, reason: Option<string>)
    requires code < 0x1_0000
    ensures var payload := ClosePayload(setup, code, reason);
            |payload| >= 2 && DecodeBE(payload[..2]) == code && payload[2..] == ReasonSent(setup, reason)
  {
    ClosePayloadIs(setup, code, reason);
    hide ClosePayload;
    hide ReasonSent;
    assert Pow256(2) == 0x1_0000;
    SizeRoundTrip(code, 2);
    assert (EncodeBE(code, 2) + ReasonSent(setup, reason))[..2] == EncodeBE(code, 2);
    hide EncodeBE;
    hide DecodeBE;
  }

  lemma CloseIsLegal(setup: Setup, cfg: Config, call: Call)
    requires call.CloseWith? && Readable(setup, cfg, call) && Checked(setup, call)
    ensures var payload := ClosePayload(setup, call.code, call.reason);
            && 2 <= |payload| <= 125 && Legality.CloseLegal(cfg, payload)
            && EventOf(setup, call) == Close(DecodeBE(payload[..2]), if |payload| > 2 then Some(payload[2..]) else None)
  {
    ClosePayloadParts(setup, call.code, call.reason);
    hide ClosePayload;
    hide ReasonSent;
    hide CodeAllowed;
    hide DecodeBE;
  }

  lemma CloseIsRead(setup: Setup, cfg: Config, r: Reading, call: Call)
    requires Opposite(setup, cfg) && setup.maxFragmentSize >= 1 && r.error.None?
    requires call.CloseWith? && Readable(setup, cfg, call) && Checked(setup, call)
    ensures ReadFrames(setup, cfg, r, FramesOf(setup, call)) == r.(events := r.events + [EventOf(setup, call)])
  {
    var f := CloseFrame(setup, call.code, call.reason);
    assert ReadFrames(setup, cfg, r, [f]) == ReadFrames(setup, cfg, ReadFrame(setup, cfg, r, f), []);
    PayloadReadBack(setup, cfg, Plainly(setup, f));
    ControlHeadFits(setup, cfg, f, r.message.fragmented);
    CloseIsLegal(setup, cfg, call);
    Legality.CloseRules(cfg, f.payload);
    hide Readable;
    hide Checked;
    hide EventOf;
    hide HeaderFault;
    hide PlainData;
    hide BodyBytes;
    hide JudgeClose;
    hide ClosePayload;
    hide Legality.CloseLegal;
  }

  lemma ControlHeadFits(setup: Setup, cfg: Config, f: OutFrame, open: bool)
    requires Opposite(setup, cfg) && f.opcode in {CLOSE, PING, PONG} && f.fin && |f.payload| <= 125
    ensures HeaderFault(cfg.role, open, HeadFor(Plainly(setup, f))).None?
  {
  }

  lemma CallIsRead(setup: Setup, cfg: Config, r: Reading, call: Call)
    requires Opposite(setup, cfg) && setup.maxFragmentSize >= 1 && r.error.None? && !r.message.fragmented
    requires Readable(setup, cfg, call) && Checked(setup, call)
    ensures var r' := ReadFrames(setup, cfg, r, FramesOf(setup, call));
            r'.error.None? && !r'.message.fragmented && r'.events == r.events + [EventOf(setup, call)]
  {
    match call
    case SendMessage(text, data) =>
      MessageIsRead(setup, cfg, r, text, data, 0);
      hide FragmentsFrom;
    case CloseWith(_, _) =>
      CloseIsRead(setup, cfg, r, call);
      hide EventOf;
  }

  /** The frames of any list of messages and closes are read as exactly those, in order. */
  lemma {:induction false} CallsAreRead(setup: Setup, cfg: Config, r: Reading, calls: seq<Call>)
    requires Opposite(setup, cfg) && setup.maxFragmentSize >= 1 && r.error.None? && !r.message.fragmented
    requires forall i :: 0 <= i < |calls| ==> Readable(setup, cfg, calls[i]) && Checked(setup, calls[i])
    ensures var r' := ReadFrames(setup, cfg, r, AllFrames(setup, calls));
            r'.error.None? && !r'.message.fragmented && r'.events == r.events + EventsOf(setup, calls)
    decreases |calls|
  {
    hide Readable;
    hide Checked;
    hide EventOf;
    hide FramesOf;
    hide ReadFrame;
    if calls == [] {
      assert r.events + [] == r.events;
    } else {
      var last := calls[|calls| - 1];
      var r1 := ReadFrames(setup, cfg, r, AllFrames(setup, calls[..|calls| - 1]));
      CallsAreRead(setup, cfg, r, calls[..|calls| - 1]);
      CallIsRead(setup, cfg, r1, last);
      ReadConcat(setup, cfg, r, AllFrames(setup, calls[..|calls| - 1]), FramesOf(setup, last));
      hide ReadFrames;
      Assoc(r.events, EventsOf(setup, calls[..|calls| - 1]), [EventOf(setup, last)]);
    }
  }

  // ---- pings and pongs

  predicate Legal(f: OutFrame) {
    Aside(f) ==> f.fin && |f.payload| <= 125
  }

  /** Pings and pongs between them do not change what messages are read. */
  lemma {:induction false} AsidesDoNotInterfere(setup: Setup, cfg: Config, a: Reading, b: Reading, fs: seq<OutFrame>)
    requires Opposite(setup, cfg) && ControlFrames.Similar(a, b) && forall i :: 0 <= i < |fs| ==> Legal(fs[i])
    ensures ControlFrames.Similar(ReadFrames(setup, cfg, a, fs), ReadFrames(setup, cfg, b, Where(Within, fs)))
    decreases |fs|
  {
    hide Take;
    hide FrameFor;
    hide ControlFrames.Undisturbed;
    hide ControlFrames.Interjected;
    if fs != [] {
      var f := FrameFor(Plainly(setup, fs[0]));
      if Aside(fs[0]) {
        AsideIsInterjected(setup, cfg, fs[0]);
        ControlFrames.InterjectedIsSimilar(cfg, a, f);
        assert Where(Within, fs) == Where(Within, fs[1..]);
        AsidesDoNotInterfere(setup, cfg, ReadFrame(setup, cfg, a, fs[0]), b, fs[1..]);
      } else {
        ControlFrames.TakeSimilar(cfg, a, b, f);
        assert Where(Within, fs)[0] == fs[0] && Where(Within, fs)[1..] == Where(Within, fs[1..]);
        AsidesDoNotInterfere(setup, cfg, ReadFrame(setup, cfg, a, fs[0]), ReadFrame(setup, cfg, b, fs[0]), fs[1..]);
      }
    }
  }

  lemma AsideIsInterjected(setup: Setup, cfg: Config, f: OutFrame)
    requires Opposite(setup, cfg) && Aside(f) && Legal(f)
    ensures ControlFrames.Interjected(cfg.role, FrameFor(Plainly(setup, f)).head)
  {
    ControlHeadFits(setup, cfg, f, false);
    hide HeaderFault;
    hide BodyBytes;
  }

  /** The pings and pongs among events. */
  function Asides(events: seq<Event>): seq<Event> {
    if events == [] then []
    else
      var e := events[|events| - 1];
      Asides(events[..|events| - 1]) + if e.Ping? || e.Pong? then [e] else []
  }

  function AsideEvent(f: OutFrame): Event {
    if f.opcode == PING then Ping(f.payload) else Pong(f.payload)
  }

  function AsideEvents(fs: seq<OutFrame>): (es: seq<Event>)
    ensures |es| == |fs|
  {
    seq(|fs|, i requires 0 <= i < |fs| => AsideEvent(fs[i]))
  }

  lemma AsideFrameIsRead(setup: Setup, cfg: Config, r: Reading, f: OutFrame)
    requires Opposite(setup, cfg) && Legal(f) && ReadFrame(setup, cfg, r, f).error.None?
    ensures Asides(ReadFrame(setup, cfg, r, f).events) == Asides(r.events) + if Aside(f) then [AsideEvent(f)] else []
  {
    var s := Plainly(setup, f);
    PayloadReadBack(setup, cfg, s);
    if Aside(f) {
      ControlHeadFits(setup, cfg, f, r.message.fragmented);
      hide HeaderFault;
      hide PlainData;
      hide BodyBytes;
      AsidesSnoc(r.events, AsideEvent(f));
    } else {
      var more := ControlFrames.Added(cfg, r, FrameFor(s));
      ControlFrames.TakeAdds(cfg, r, FrameFor(s));
      WithinAddsNoAside(cfg, r, FrameFor(s));
      hide ControlFrames.Added;
      hide Take;
      hide FrameFor;
      if more != [] {
        assert more == [more[0]];
        AsidesSnoc(r.events, more[0]);
      } else {
        assert r.events + [] == r.events;
      }
      assert Asides(r.events) + [] == Asides(r.events);
    }
  }

  lemma WithinAddsNoAside(cfg: Config, r: Reading, f: Frame)
    requires f.head.opcode != PING && f.head.opcode != PONG && Take(cfg, r, f).error.None?
    ensures forall i :: 0 <= i < |ControlFrames.Added(cfg, r, f)| ==>
              !ControlFrames.Added(cfg, r, f)[i].Ping? && !ControlFrames.Added(cfg, r, f)[i].Pong?
  {
    hide Extended;
    hide PlainData;
    hide JudgeClose;
    JudgedIsClose(cfg, PlainData(cfg.role, f));
  }

  lemma JudgedIsClose(cfg: Config, payload: seq<byte>)
    ensures JudgeClose(cfg, payload).Accept? ==> JudgeClose(cfg, payload).close.Close?
  {
  }

  lemma AsidesSnoc(events: seq<Event>, e: Event)
    ensures Asides(events + [e]) == Asides(events) + if e.Ping? || e.Pong? then [e] else []
  {
    assert (events + [e])[..|events|] == events;
  }

  /** The pings and pongs reported are those written, in order. */
  lemma {:induction false} AsidesAreRead(setup: Setup, cfg: Config, r: Reading, fs: seq<OutFrame>)
    requires Opposite(setup, cfg) && (forall i :: 0 <= i < |fs| ==> Legal(fs[i])) && ReadFrames(setup, cfg, r, fs).error.None?
    ensures Asides(ReadFrames(setup, cfg, r, fs).events) == Asides(r.events) + AsideEvents(Where(Aside, fs))
    decreases |fs|
  {
    hide ReadFrame;
    hide Legal;
    hide Asides;
    if fs == [] {
      assert Asides(r.events) + [] == Asides(r.events);
      assert AsideEvents([]) == [];
    } else {
      var r1 := ReadFrame(setup, cfg, r, fs[0]);
      ReadGrows(setup, cfg, r1, fs[1..]);
      AsideFrameIsRead(setup, cfg, r, fs[0]);
      AsidesAreRead(setup, cfg, r1, fs[1..]);
      var first, rest := if Aside(fs[0]) then [fs[0]] else [], Where(Aside, fs[1..]);
      assert AsideEvents(first + rest) == AsideEvents(first) + AsideEvents(rest);
      Assoc(Asides(r.events), AsideEvents(first), AsideEvents(rest));
      assert AsideEvents(first) == if Aside(fs[0]) then [AsideEvent(fs[0])] else [];
    }
  }

  // ---- sizes and codes over every run

  predicate CallFits(call: Call) {
    if call.SendMessage? then |call.data| <= MAX_SAFE_INTEGER else call.code < 0x1_0000
  }

  predicate FrameFits(f: OutFrame) {
    && f.opcode in {CONTINUATION, TEXT, BINARY, CLOSE, PING, PONG}
    && |f.payload| <= MAX_SAFE_INTEGER
    && (Aside(f) ==> f.fin)
  }

  /** A close whose frame was passed on has a payload that fits. */
  predicate ClosePassed(setup: Setup, t: Turn) {
    t.call.CloseWith? && (t.stage.Writing? || t.stage.Closed?) ==> |ClosePayload(setup, t.call.code, t.call.reason)| <= 125
  }

  ghost predicate SizesInv(setup: Setup, s: State) {
    && (forall i :: 0 <= i < |s.turns| ==> CallFits(s.turns[i].call) && ClosePassed(setup, s.turns[i]))
    && (forall i :: 0 <= i < |s.calls| ==> CallFits(s.calls[i]))
    && (forall i :: 0 <= i < |s.submitted| ==> FrameFits(s.submitted[i]))
  }

  lemma FragmentFits(text: bool, data: seq<byte>, max: nat, from: nat)
    requires from <= |data| <= MAX_SAFE_INTEGER
    ensures FrameFits(FragmentAt(text, data, max, from))
  {
  }

  lemma ClosePasses(setup: Setup, checkCloseCode: bool, code: nat, reason: Option<string>)
    requires code < 0x1_0000 && !CloseThrows(setup, checkCloseCode, code, reason)
    ensures |ClosePayload(setup, code, reason)| <= 125 && FrameFits(CloseFrame(setup, code, reason))
  {
  }

  lemma TurnKeepsSizes(setup: Setup, s: State)
    requires SizesInv(setup, s) && s.turns != []
    ensures SizesInv(setup, TurnStep(setup, s))
  {
    hide CloseThrows;
    hide FragmentAt;
    hide CloseFrame;
    hide ClosePayload;
    assert CallFits(s.turns[0].call);
    match s.turns[0].call
    case SendMessage(text, data) => FragmentFits(text, data, setup.maxFragmentSize, 0);
    case CloseWith(code, reason) =>
      if !CloseThrows(setup, s.checkCloseCode, code, reason) {
        ClosePasses(setup, s.checkCloseCode, code, reason);
      }
    hide FrameFits;
  }

  lemma ContinueKeepsSizes(setup: Setup, s: State)
    requires SizesInv(setup, s)
    requires s.turns != [] && s.turns[0].stage.Written? && s.turns[0].call.SendMessage?
    ensures SizesInv(setup, ContinueStep(setup, s))
  {
    hide FragmentAt;
    hide ClosePayload;
    assert CallFits(s.turns[0].call);
    var call, next := s.turns[0].call, s.turns[0].stage.from + setup.maxFragmentSize;
    if next < |call.data| {
      FragmentFits(call.text, call.data, setup.maxFragmentSize, next);
    }
    hide FrameFits;
  }

  lemma StepKeepsSizes(setup: Setup, s: State, a: Action)
    requires SizesInv(setup, s) && Enabled(setup, s, a)
    ensures SizesInv(setup, Next(setup, s, a))
  {
    hide TurnStep;
    hide ContinueStep;
    hide ClosePayload;
    match a
    case Make(_) =>
    case MakeControl(_, _) =>
    case TrustCodes =>
    case TakeTurn => TurnKeepsSizes(setup, s);
    case LockFrame(_) =>
    case WriteHead =>
    case WriteBody =>
    case ReleaseFrame =>
    case Continue => ContinueKeepsSizes(setup, s);
  }

  lemma {:induction false} RunKeepsSizes(setup: Setup, s: State, actions: seq<Action>)
    requires SizesInv(setup, s) && Possible(setup, s, actions)
    ensures SizesInv(setup, After(setup, s, actions))
    decreases |actions|
  {
    hide SizesInv;
    hide Enabled;
    hide Next;
    if actions != [] {
      StepKeepsSizes(setup, s, actions[0]);
      RunKeepsSizes(setup, Next(setup, s, actions[0]), actions[1..]);
    }
  }

  lemma ReachableSizes(setup: Setup, s: State)
    requires Reachable(setup, s)
    ensures SizesInv(setup, s)
  {
    hide Next;
    hide Enabled;
    var actions :| Possible(setup, INITIAL, actions) && s == After(setup, INITIAL, actions);
    RunKeepsSizes(setup, INITIAL, actions);
  }

  lemma HeadIsChecked(setup: Setup, t: Turn)
    requires CallFits(t.call) && ClosePassed(setup, t) && StageFits(t) && !t.stage.Waiting? && !t.stage.Refused?
    ensures Checked(setup, t.call)
  {
    if t.call.CloseWith? {
      ClosePayloadIs(setup, t.call.code, t.call.reason);
    }
    hide ClosePayload;
    hide ReasonSent;
  }

  lemma SendIsChecked(setup: Setup, call: Call)
    requires CallFits(call) && call.SendMessage?
    ensures Checked(setup, call)
  {
  }

  lemma ServedCalls(setup: Setup, s: State)
    requires setup.maxFragmentSize >= 1 && TurnsInv(setup, s)
    ensures s.done <= Served(s) <= |s.calls|
    ensures forall i :: 0 <= i < s.done ==> s.calls[i].SendMessage?
    ensures Served(s) > s.done ==> s.turns[0].call == s.calls[s.done] && StageFits(s.turns[0])
  {
    hide Where;
    hide AllFrames;
    hide Ahead;
    hide Total;
    hide InQueue;
  }

  lemma CallsAreChecked(setup: Setup, calls: seq<Call>, done: nat, head: Turn, served: nat)
    requires done <= served <= |calls| && served <= done + 1
    requires forall i :: 0 <= i < |calls| ==> CallFits(calls[i])
    requires forall i :: 0 <= i < done ==> calls[i].SendMessage?
    requires served > done ==> head.call == calls[done] && ClosePassed(setup, head) && StageFits(head)
                               && !head.stage.Waiting? && !head.stage.Refused?
    ensures forall i :: 0 <= i < served ==> Checked(setup, calls[i])
  {
    hide ClosePayload;
    hide StageFits;
    forall i | 0 <= i < served
      ensures Checked(setup, calls[i])
    {
      assert CallFits(calls[i]);
      if i < done {
        SendIsChecked(setup, calls[i]);
      } else {
        HeadIsChecked(setup, head);
      }
    }
  }

  lemma ServedAreChecked(setup: Setup, s: State)
    requires setup.maxFragmentSize >= 1 && TurnsInv(setup, s) && SizesInv(setup, s)
    ensures Served(s) <= |s.calls| && forall i :: 0 <= i < Served(s) ==> Checked(setup, s.calls[i])
  {
    ServedCalls(setup, s);
    hide TurnsInv;
    hide Checked;
    hide CallFits;
    hide ClosePassed;
    hide FrameFits;
    hide StageFits;
    if Served(s) > s.done {
      CallsAreChecked(setup, s.calls, s.done, s.turns[0], Served(s));
    } else {
      CallsAreChecked(setup, s.calls, s.done, Turn(CloseWith(0, None), Waiting), s.done);
    }
  }

  // ---- end to end

  lemma {:induction false} UndisturbedSame(events: seq<Event>)
    requires forall i :: 0 <= i < |events| ==> !events[i].Ping? && !events[i].Pong?
    ensures ControlFrames.Undisturbed(events) == events
  {
    if events != [] {
      UndisturbedSame(events[..|events| - 1]);
    }
  }

  lemma {:induction false} CallEvents(setup: Setup, calls: seq<Call>)
    ensures |EventsOf(setup, calls)| == |calls|
    ensures forall i :: 0 <= i < |calls| ==> EventsOf(setup, calls)[i] == EventOf(setup, calls[i])
    ensures forall i :: 0 <= i < |calls| ==> !EventsOf(setup, calls)[i].Ping? && !EventsOf(setup, calls)[i].Pong?
  {
    if calls != [] {
      CallEvents(setup, calls[..|calls| - 1]);
      hide ReasonSent;
    }
  }

  /** Message frames that are a beginning of what some calls amount to are read as a beginning of those calls. */
  lemma BeginningIsRead(setup: Setup, cfg: Config, written: seq<OutFrame>, calls: seq<Call>)
    requires Opposite(setup, cfg) && setup.maxFragmentSize >= 1
    requires forall i :: 0 <= i < |calls| ==> Readable(setup, cfg, calls[i]) && Checked(setup, calls[i])
    requires written <= AllFrames(setup, calls)
    ensures var r := ReadFrames(setup, cfg, NOTHING_READ, written);
            && r.error.None?
            && ControlFrames.Undisturbed(r.events) == r.events <= EventsOf(setup, calls)
            && (written == AllFrames(setup, calls) ==> r.events == EventsOf(setup, calls))
  {
    hide Readable;
    hide Checked;
    hide EventOf;
    var all := AllFrames(setup, calls);
    var r := ReadFrames(setup, cfg, NOTHING_READ, written);
    CallsAreRead(setup, cfg, NOTHING_READ, calls);
    ReadPrefix(setup, cfg, NOTHING_READ, written, all);
    assert [] + EventsOf(setup, calls) == EventsOf(setup, calls);
    CallEvents(setup, calls);
    hide ReadFrames;
    hide AllFrames;
    hide EventsOf;
    UndisturbedSame(r.events);
  }

  /** Message frames that begin with all frames of some calls are read as a list that begins with those calls. */
  lemma FinishedAreRead(setup: Setup, cfg: Config, written: seq<OutFrame>, calls: seq<Call>)
    requires Opposite(setup, cfg) && setup.maxFragmentSize >= 1
    requires forall i :: 0 <= i < |calls| ==> Readable(setup, cfg, calls[i]) && Checked(setup, calls[i])
    requires AllFrames(setup, calls) <= written
    ensures EventsOf(setup, calls) <= ReadFrames(setup, cfg, NOTHING_READ, written).events
    ensures written == AllFrames(setup, calls) ==> EventsOf(setup, calls) == ReadFrames(setup, cfg, NOTHING_READ, written).events
  {
    hide Readable;
    hide Checked;
    hide EventOf;
    hide ReadFrames;
    hide AllFrames;
    hide EventsOf;
    CallsAreRead(setup, cfg, NOTHING_READ, calls);
    ReadPrefix(setup, cfg, NOTHING_READ, AllFrames(setup, calls), written);
    assert [] + EventsOf(setup, calls) == EventsOf(setup, calls);
  }

  lemma SubmittedAreLegal(setup: Setup, s: State)
    requires SizesInv(setup, s) && CountsInv(s)
    requires forall i :: 0 <= i < |s.controls| ==> |s.controls[i].payload| <= 125
    ensures forall i :: 0 <= i < |s.submitted| ==> Legal(s.submitted[i])
  {
    forall i | 0 <= i < |s.submitted|
      ensures Legal(s.submitted[i])
    {
      assert FrameFits(s.submitted[i]);
      if Aside(s.submitted[i]) {
        WhereMember(Aside, s.submitted, i);
      }
    }
  }

  ghost predicate Compatible(setup: Setup, cfg: Config, s: State) {
    && setup.maxFragmentSize >= 1
    && Reachable(setup, s)
    && Opposite(setup, cfg)
    && (forall i :: 0 <= i < |s.calls| && i < Served(s) ==> Readable(setup, cfg, s.calls[i]))
    && (forall i :: 0 <= i < |s.controls| ==> |s.controls[i].payload| <= 125)
  }

  lemma PrefixFacts(setup: Setup, cfg: Config, s: State, fs: seq<OutFrame>)
    requires Compatible(setup, cfg, s) && fs <= s.submitted
    ensures Served(s) <= |s.calls|
    ensures Where(Within, fs) <= AllFrames(setup, s.calls[..Served(s)])
    ensures forall i :: 0 <= i < Served(s) ==> Checked(setup, s.calls[i])
    ensures forall i :: 0 <= i < |fs| ==> Legal(fs[i])
  {
    ReachableInv(setup, s);
    ReachableSizes(setup, s);
    hide Reachable;
    hide FramesInv;
    SubmittedAreLegal(setup, s);
    ServedCalls(setup, s);
    ServedFrames(setup, s);
    ServedAreChecked(setup, s);
    WherePrefix(Within, fs, s.submitted);
    hide SizesInv;
    hide CountsInv;
    hide TurnsInv;
    hide Readable;
    hide Checked;
    hide Legal;
    hide Where;
    hide AllFrames;
  }

  /** Any beginning of the frames passed on is read without error, as a beginning of the calls. */
  lemma PrefixIsRead(setup: Setup, cfg: Config, s: State, fs: seq<OutFrame>)
    requires Compatible(setup, cfg, s) && fs <= s.submitted
    ensures Served(s) <= |s.calls|
    ensures var r := ReadFrames(setup, cfg, NOTHING_READ, fs);
            && r.error.None?
            && ControlFrames.Undisturbed(r.events) <= EventsOf(setup, s.calls[..Served(s)])
            && ControlFrames.Undisturbed(r.events) == ReadFrames(setup, cfg, NOTHING_READ, Where(Within, fs)).events
            && Asides(r.events) == AsideEvents(Where(Aside, fs))
  {
    PrefixFacts(setup, cfg, s, fs);
    hide Reachable;
    hide Readable;
    hide Checked;
    hide Legal;
    hide AllFrames;
    hide EventsOf;
    hide ReadFrames;
    hide Where;
    BeginningIsRead(setup, cfg, Where(Within, fs), s.calls[..Served(s)]);
    AsidesDoNotInterfere(setup, cfg, NOTHING_READ, NOTHING_READ, fs);
    AsidesAreRead(setup, cfg, NOTHING_READ, fs);
    assert [] + AsideEvents(Where(Aside, fs)) == AsideEvents(Where(Aside, fs));
  }

  lemma {:induction false} AsidesPrefix(a: seq<OutFrame>, b: seq<OutFrame>)
    requires a <= b
    ensures AsideEvents(a) <= AsideEvents(b)
  {
    forall i | 0 <= i < |a|
      ensures AsideEvents(a)[i] == AsideEvents(b)[i]
    {
      assert a[i] == b[i];
    }
  }

  /** The frame begun is the next one passed on. */
  lemma BegunIsNext(setup: Setup, s: State)
    requires FramesInv(setup, s) && PartialBytes(s.jobs) != []
    ensures LogFrames(s.log) + [s.jobs[0].frame] <= s.submitted
    ensures s.jobs[0].progress.HeadWritten? && s.jobs[0].frame.payload != []
    ensures MaskFits(setup, s.jobs[0].progress.mask) && s.jobs[0].frame in s.submitted
    ensures PartialBytes(s.jobs) == HeadBytes(Sent(s.jobs[0].frame, s.jobs[0].progress.mask))
  {
    hide WireBytes;
    hide HeadBytes;
    hide MaskFits;
    var f := s.jobs[0].frame;
    assert Unwritten(s.jobs) == [f] + Unwritten(s.jobs)[1..];
    Assoc(LogFrames(s.log), [f], Unwritten(s.jobs)[1..]);
    assert (LogFrames(s.log) + [f])[|s.log|] == f;
  }

  /** A header whose frame would be read without error shows no fault. */
  lemma ReadableHeader(setup: Setup, cfg: Config, r: Reading, s: Sent)
    requires Opposite(setup, cfg) && MaskFits(setup, s.mask) && r.error.None?
    requires ReadFrame(setup, cfg, r, s.frame).error.None?
    ensures HeaderFault(cfg.role, r.message.fragmented, HeadFor(s)).None?
  {
    MaskIrrelevant(setup, cfg, r, s);
    FaultIsError(cfg, r, FrameFor(Plainly(setup, s.frame)));
    hide Take;
    hide HeaderFault;
  }

  lemma FaultIsError(cfg: Config, r: Reading, f: Frame)
    requires r.error.None? && Take(cfg, r, f).error.None?
    ensures HeaderFault(cfg.role, r.message.fragmented, f.head).None?
  {
    hide HeaderFault;
  }

  /** What follows the whole frames on the wire is no fault. */
  lemma TailIsRead(setup: Setup, cfg: Config, s: State)
    requires Compatible(setup, cfg, s)
    ensures var tail := Split(PartialBytes(s.jobs));
            && tail.frames == []
            && StreamError(cfg, ReadFrames(setup, cfg, NOTHING_READ, LogFrames(s.log)), tail.tail).None?
  {
    ReachableInv(setup, s);
    ReachableSizes(setup, s);
    WrittenIsPrefix(setup, s);
    PrefixIsRead(setup, cfg, s, LogFrames(s.log));
    var r := ReadFrames(setup, cfg, NOTHING_READ, LogFrames(s.log));
    hide Reachable;
    hide TurnsInv;
    hide CountsInv;
    if PartialBytes(s.jobs) == [] {
      NothingToSplit();
    } else {
      BegunIsNext(setup, s);
      var f := s.jobs[0].frame;
      var next := Sent(f, s.jobs[0].progress.mask);
      assert FrameFits(f);
      HeaderToSplit(next);
      PrefixIsRead(setup, cfg, s, LogFrames(s.log) + [f]);
      ReadConcat(setup, cfg, NOTHING_READ, LogFrames(s.log), [f]);
      OneFrame(setup, cfg, r, f);
      ReadableHeader(setup, cfg, r, next);
      hide HeadBytes;
      hide ParseHead;
      hide HeaderFault;
      hide FramesInv;
      hide SizesInv;
    }
  }

  lemma OneFrame(setup: Setup, cfg: Config, r: Reading, f: OutFrame)
    ensures ReadFrames(setup, cfg, r, [f]) == ReadFrame(setup, cfg, r, f)
  {
    hide ReadFrame;
    assert ReadFrames(setup, cfg, ReadFrame(setup, cfg, r, f), [f][1..]) == ReadFrame(setup, cfg, r, f);
  }

  /** The reader's view of the wire at any moment of any run. */
  lemma WireIsRead(setup: Setup, cfg: Config, s: State, chunks: seq<seq<byte>>)
    requires Compatible(setup, cfg, s) && Flatten(chunks) == s.wire
    ensures var m := FeedAll(cfg, START, chunks);
            m.error.None? && m.events == ReadFrames(setup, cfg, NOTHING_READ, LogFrames(s.log)).events
  {
    ReachableInv(setup, s);
    ReachableSizes(setup, s);
    WrittenIsPrefix(setup, s);
    LoggedAreWritable(setup, s);
    WireReadBack(s.log, PartialBytes(s.jobs));
    TailIsRead(setup, cfg, s);
    LogIsRead(setup, cfg, NOTHING_READ, s.log);
    ReaderAgrees(cfg, chunks);
    assert FramesFor(s.log) + [] == FramesFor(s.log);
    hide FeedAll;
    hide Split;
    hide TakeAll;
    hide ReadFrames;
    hide Reachable;
    hide TurnsInv;
    hide CountsInv;
    hide SizesInv;
    hide StreamError;
  }

  lemma LoggedAreWritable(setup: Setup, s: State)
    requires setup.maxFragmentSize >= 1 && FramesInv(setup, s) && SizesInv(setup, s)
    ensures forall i :: 0 <= i < |s.log| ==> Writable(s.log[i]) && MaskFits(setup, s.log[i].mask)
  {
    hide WireBytes;
    hide HeadBytes;
    hide MaskFits;
    WrittenIsPrefix(setup, s);
    forall i | 0 <= i < |s.log|
      ensures Writable(s.log[i])
    {
      assert LogFrames(s.log)[i] == s.log[i].frame == s.submitted[i];
      assert FrameFits(s.submitted[i]);
    }
  }

  /** The calls that have finished, and the close that has, are among those read. */
  lemma FinishedArrive(setup: Setup, cfg: Config, s: State)
    requires Compatible(setup, cfg, s)
    ensures s.done <= Served(s) <= |s.calls|
    ensures var read := ReadFrames(setup, cfg, NOTHING_READ, Where(Within, LogFrames(s.log))).events;
            && EventsOf(setup, s.calls[..s.done]) <= read
            && (s.turns == [] ==> read == EventsOf(setup, s.calls))
            && (s.turns != [] && s.turns[0].stage.Closed? ==>
                  s.done < |s.calls| && read == EventsOf(setup, s.calls[..s.done + 1]))
  {
    var written := Where(Within, LogFrames(s.log));
    LogPrefixFacts(setup, cfg, s);
    FinishedAreWritten(setup, s);
    hide Compatible;
    hide Reachable;
    hide ReadFrames;
    hide EventsOf;
    hide AllFrames;
    hide Where;
    hide Readable;
    hide Checked;
    FinishedAreRead(setup, cfg, written, s.calls[..s.done]);
    if s.turns == [] {
      AllServedIsWritten(setup, s);
    } else if s.turns[0].stage.Closed? {
      ClosedIsWritten(setup, s);
      FinishedAreRead(setup, cfg, written, s.calls[..s.done + 1]);
    }
  }

  lemma LogPrefixFacts(setup: Setup, cfg: Config, s: State)
    requires Compatible(setup, cfg, s)
    ensures s.done <= Served(s) <= |s.calls|
    ensures setup.maxFragmentSize >= 1 && Opposite(setup, cfg) && Reachable(setup, s)
    ensures forall i :: 0 <= i < Served(s) ==> Readable(setup, cfg, s.calls[i]) && Checked(setup, s.calls[i])
  {
    ReachableInv(setup, s);
    WrittenIsPrefix(setup, s);
    ServedCalls(setup, s);
    PrefixFacts(setup, cfg, s, LogFrames(s.log));
    hide Reachable;
    hide FramesInv;
    hide TurnsInv;
    hide CountsInv;
    hide Readable;
    hide Checked;
  }

  lemma StateIsRead(setup: Setup, cfg: Config, s: State, chunks: seq<seq<byte>>)
    requires Compatible(setup, cfg, s) && Flatten(chunks) == s.wire
    ensures var m := FeedAll(cfg, START, chunks);
            && m.error.None?
            && s.done <= Served(s) <= |s.calls|
            && EventsOf(setup, s.calls[..s.done]) <= ControlFrames.Undisturbed(m.events)
            && ControlFrames.Undisturbed(m.events) <= EventsOf(setup, s.calls[..Served(s)])
            && (s.turns == [] ==> ControlFrames.Undisturbed(m.events) == EventsOf(setup, s.calls))
            && (s.turns != [] && s.turns[0].stage.Closed? ==>
                  s.done < |s.calls| && ControlFrames.Undisturbed(m.events) == EventsOf(setup, s.calls[..s.done + 1]))
            && Asides(m.events) == AsideEvents(Where(Aside, LogFrames(s.log))) <= AsideEvents(s.controls)
            && (s.jobs == [] ==> Asides(m.events) == AsideEvents(s.controls))
  {
    WireIsRead(setup, cfg, s, chunks);
    ReachableInv(setup, s);
    WrittenIsPrefix(setup, s);
    PrefixIsRead(setup, cfg, s, LogFrames(s.log));
    FinishedArrive(setup, cfg, s);
    ControlsOnRecord(setup, s);
    AsidesPrefix(Where(Aside, LogFrames(s.log)), s.controls);
    hide FeedAll;
    hide Reachable;
    hide FramesInv;
    hide TurnsInv;
    hide CountsInv;
    hide Where;
    hide Asides;
    hide EventsOf;
  }

  /** The `ping` and `pong` calls of a run, as the other side is to hear of them. */
  function ControlEvents(actions: seq<Action>): seq<Event> {
    if actions == [] then []
    else
      (match actions[0]
       case MakeControl(true, payload) => [Ping(payload)]
       case MakeControl(false, payload) => [Pong(payload)]
       case _ => [])
      + ControlEvents(actions[1..])
  }

  function Asked(a: Action): (fs: seq<OutFrame>)
    ensures |fs| <= 1
  {
    if a.MakeControl? then [OutFrame(if a.ping then PING else PONG, a.payload, true)] else []
  }

  lemma FirstAsked(actions: seq<Action>)
    requires actions != []
    ensures ControlCalls(actions) == Asked(actions[0]) + ControlCalls(actions[1..])
    ensures ControlEvents(actions) == AsideEvents(Asked(actions[0])) + ControlEvents(actions[1..])
  {
    var a := actions[0];
    if a.MakeControl? {
      assert AsideEvents(Asked(a)) == [if a.ping then Ping(a.payload) else Pong(a.payload)];
    } else {
      assert AsideEvents(Asked(a)) == [];
    }
  }

  lemma AsideEventsConcat(a: seq<OutFrame>, b: seq<OutFrame>)
    ensures AsideEvents(a + b) == AsideEvents(a) + AsideEvents(b)
  {
    hide AsideEvent;
  }

  lemma {:induction false} ControlsAreEvents(actions: seq<Action>)
    ensures AsideEvents(ControlCalls(actions)) == ControlEvents(actions)
  {
    if actions != [] {
      FirstAsked(actions);
      ControlsAreEvents(actions[1..]);
      AsideEventsConcat(Asked(actions[0]), ControlCalls(actions[1..]));
      hide AsideEvents;
    }
  }

  /** The hypotheses of a round trip: a run whose ends are opposite, whose calls, as far as they have been served, the reader
      can accept, and whose pings and pongs are short. */
  ghost predicate Acceptable(setup: Setup, cfg: Config, actions: seq<Action>) {
    && setup.maxFragmentSize >= 1 && Opposite(setup, cfg) && Possible(setup, INITIAL, actions)
    && (forall i :: 0 <= i < |MessageCalls(actions)| && i < Served(After(setup, INITIAL, actions)) ==>
          Readable(setup, cfg, MessageCalls(actions)[i]))
    && (forall i :: 0 <= i < |ControlCalls(actions)| ==> |ControlCalls(actions)[i].payload| <= 125)
  }

  lemma AcceptableIsCompatible(setup: Setup, cfg: Config, actions: seq<Action>)
    requires Acceptable(setup, cfg, actions)
    ensures Compatible(setup, cfg, After(setup, INITIAL, actions))
  {
    RunRecords(setup, actions);
    hide After;
    hide Possible;
    hide MessageCalls;
    hide ControlCalls;
    hide Readable;
  }

  /** Round trip. At every moment of every run of the writer and for every cutting of its wire, the opposite reader has no
      error and has reported the finished calls, messages and closes in call order, and at most a beginning of the calls
      served; if one closed, exactly the calls up to it. It has reported a beginning of the pings and pongs called for, all of
      them when the frame mutex is free. */
  lemma EndToEnd(setup: Setup, cfg: Config, actions: seq<Action>, chunks: seq<seq<byte>>)
    requires Acceptable(setup, cfg, actions) && Flatten(chunks) == After(setup, INITIAL, actions).wire
    ensures var s, calls, m := After(setup, INITIAL, actions), MessageCalls(actions), FeedAll(cfg, START, chunks);
            && m.error.None?
            && s.done <= Served(s) <= |calls|
            && EventsOf(setup, calls[..s.done]) <= ControlFrames.Undisturbed(m.events)
            && ControlFrames.Undisturbed(m.events) <= EventsOf(setup, calls[..Served(s)])
            && (s.turns == [] ==> ControlFrames.Undisturbed(m.events) == EventsOf(setup, calls))
            && (s.turns != [] && s.turns[0].stage.Closed? ==>
                  s.done < |calls| && ControlFrames.Undisturbed(m.events) == EventsOf(setup, calls[..s.done + 1]))
            && Asides(m.events) <= ControlEvents(actions)
            && (s.jobs == [] ==> Asides(m.events) == ControlEvents(actions))
  {
    AcceptableIsCompatible(setup, cfg, actions);
    hide Compatible;
    hide FeedAll;
    hide After;
    hide Possible;
    hide MessageCalls;
    hide ControlCalls;
    hide ControlEvents;
    hide Readable;
    hide Where;
    hide Asides;
    hide AsideEvents;
    hide EventsOf;
    RunRecords(setup, actions);
    StateIsRead(setup, cfg, After(setup, INITIAL, actions), chunks);
    ControlsAreEvents(actions);
  }

  /** A code the writer checks before sending is one the opposite reader allows. */
  lemma CheckedCodesAreAllowed(setup: Setup, cfg: Config, code: nat)
    requires Opposite(setup, cfg) && CodeMaySend(setup.isClient, code)
    ensures CodeAllowed(cfg.role, code)
  {
  }
}
