/** The frame sequences of RFC 6455 section 5.4, stated without a decoder, and the reader's exact acceptance of them. */
module Legality {
  import opened Bytes
  import opened Frames
  import opened Decoder
  import opened Reference

  predicate Data(f: Frame) {
    IsData(f.head.opcode)
  }

  predicate Begins(f: Frame) {
    f.head.opcode == TEXT || f.head.opcode == BINARY
  }

  /** What a header may look like on its own. A server tolerates an empty payload without a mask. */
  predicate WellFormed(role: Role, h: Head) {
    && !h.rsv1 && !h.rsv2 && !h.rsv3
    && h.opcode in {CONTINUATION, TEXT, BINARY, CLOSE, PING, PONG}
    && (h.opcode in {CLOSE, PING, PONG} ==> h.fin && h.size7 <= 125)
    && (role == Client ==> !h.hasMask)
    && (role == Server ==> h.hasMask || h.size == 0)
  }

  ghost predicate LastDataBefore(fs: seq<Frame>, j: nat, i: nat)
    requires i <= |fs|
  {
    j < i && Data(fs[j]) && forall k :: j < k < i ==> !Data(fs[k])
  }

  /** Before frame `i`, the last data frame was not a final one. */
  ghost predicate OpenAt(fs: seq<Frame>, i: nat)
    requires i <= |fs|
  {
    exists j: nat :: j < i && LastDataBefore(fs, j, i) && !fs[j].head.fin
  }

  /** Continuations only inside a fragmented message, new messages only outside. */
  ghost predicate InOrder(open: bool, h: Head) {
    && (h.opcode == CONTINUATION ==> open)
    && (h.opcode == TEXT || h.opcode == BINARY ==> !open)
  }

  /** The frame that began the message of frame `i`. */
  function Start(fs: seq<Frame>, i: nat): (s: nat)
    requires i < |fs|
    ensures s <= i
  {
    if Begins(fs[i]) || i == 0 then i else Start(fs, i - 1)
  }

  /** The data carried by the data frames from `lo` up to `hi`. */
  function Content(role: Role, fs: seq<Frame>, lo: nat, hi: nat): seq<byte>
    requires lo <= hi <= |fs|
  {
    if lo == hi then []
    else Content(role, fs, lo, hi - 1) + if Data(fs[hi - 1]) then PlainData(role, fs[hi - 1]) else []
  }

  predicate CloseLegal(cfg: Config, payload: seq<byte>) {
    && |payload| != 1
    && (|payload| > 2 ==> cfg.utf8(payload[2..]))
    && (|payload| >= 2 && cfg.checkCloseCode ==> CodeAllowed(cfg.role, DecodeBE(payload[..2])))
  }

  /** Text messages are UTF-8 as a whole; close frames carry a permitted code and a UTF-8 reason. */
  predicate ContentLegal(cfg: Config, fs: seq<Frame>, i: nat)
    requires i < |fs|
  {
    var s := Start(fs, i);
    && (Data(fs[i]) && fs[i].head.fin && fs[s].head.opcode == TEXT ==> cfg.utf8(Content(cfg.role, fs, s, i + 1)))
    && (fs[i].head.opcode == CLOSE ==> CloseLegal(cfg, PlainData(cfg.role, fs[i])))
  }

  ghost predicate LegalAt(cfg: Config, fs: seq<Frame>, i: nat)
    requires i < |fs|
  {
    WellFormed(cfg.role, fs[i].head) && InOrder(OpenAt(fs, i), fs[i].head) && ContentLegal(cfg, fs, i)
  }

  ghost predicate LegalUpTo(cfg: Config, fs: seq<Frame>, n: nat)
    requires n <= |fs|
  {
    forall i: nat :: i < n ==> LegalAt(cfg, fs, i)
  }

  /** What frame `i` makes the reader report. */
  function EventAt(cfg: Config, fs: seq<Frame>, i: nat): seq<Event>
    requires i < |fs|
  {
    var payload := PlainData(cfg.role, fs[i]);
    if Data(fs[i]) then
      if !fs[i].head.fin then []
      else
        var s := Start(fs, i);
        [Message(fs[s].head.opcode == TEXT, Content(cfg.role, fs, s, i + 1))]
    else if fs[i].head.opcode == PING then [Ping(payload)]
    else if fs[i].head.opcode == PONG then [Pong(payload)]
    else [Close(if |payload| < 2 then 1005 else DecodeBE(payload[..2]), if |payload| > 2 then Some(payload[2..]) else None)]
  }

  function EventsUpTo(cfg: Config, fs: seq<Frame>, n: nat): seq<Event>
    requires n <= |fs|
  {
    if n == 0 then [] else EventsUpTo(cfg, fs, n - 1) + EventAt(cfg, fs, n - 1)
  }

  /** The error code for an illegal frame: 1007 where only the text is wrong, else 1002. */
  ghost function FaultAt(cfg: Config, fs: seq<Frame>, i: nat): nat
    requires i < |fs|
  {
    var payload := PlainData(cfg.role, fs[i]);
    if !WellFormed(cfg.role, fs[i].head) || !InOrder(OpenAt(fs, i), fs[i].head) then 1002
    else if Data(fs[i]) then 1007
    else if |payload| > 2 && !cfg.utf8(payload[2..]) then 1007
    else 1002
  }

  // ---- frames cut out of a stream have the lengths their headers announce

  predicate Genuine(f: Frame) {
    |f.data| == f.head.size && (f.head.size7 <= 125 ==> f.head.size == f.head.size7)
  }

  lemma {:induction false} SplitIsGenuine(s: seq<byte>)
    ensures forall i :: 0 <= i < |Split(s).frames| ==> Genuine(Split(s).frames[i])
    decreases |s|
  {
    hide FirstHead;
    if ParseHead(s).Whole? {
      var h, n := ParseHead(s).head, ParseHead(s).length;
      HeadNotEmpty(s);
      if |s| >= n + h.size {
        SplitIsGenuine(s[n + h.size..]);
        FirstHeadSize(ReadUInt16BE(s[..2]));
        assert Genuine(Frame(h, s[n..n + h.size]));
      }
    }
  }

  lemma FirstHeadSize(bits: bv16)
    ensures FirstHead(bits).size7 <= 125 ==> FirstHead(bits).size == FirstHead(bits).size7
  {
  }

  // ---- the header checks in order are the header rules

  lemma HeaderRules(role: Role, open: bool, h: Head)
    ensures HeaderFault(role, open, h) == if WellFormed(role, h) && InOrder(open, h) then None else Some(1002)
  {
    ControlOpcodes(h.opcode);
  }

  lemma ControlOpcodes(opcode: bv8)
    ensures opcode in {CLOSE, PING, PONG} ==> IsControl(opcode)
    ensures opcode in {CONTINUATION, TEXT, BINARY} ==> !IsControl(opcode)
  {
  }

  lemma CloseRules(cfg: Config, payload: seq<byte>)
    requires |payload| <= 125
    ensures JudgeClose(cfg, payload).Accept? <==> CloseLegal(cfg, payload)
    ensures !CloseLegal(cfg, payload) ==>
              JudgeClose(cfg, payload) == Reject(if |payload| > 2 && !cfg.utf8(payload[2..]) then 1007 else 1002)
    ensures CloseLegal(cfg, payload) ==>
              (JudgeClose(cfg, payload).close
               == Close(if |payload| < 2 then 1005 else DecodeBE(payload[..2]), if |payload| > 2 then Some(payload[2..]) else None))
  {
  }

  lemma OpenAfter(fs: seq<Frame>, i: nat)
    requires i < |fs|
    ensures OpenAt(fs, i + 1) <==> if Data(fs[i]) then !fs[i].head.fin else OpenAt(fs, i)
  {
    if Data(fs[i]) {
      assert LastDataBefore(fs, i, i + 1);
    } else if OpenAt(fs, i) {
      var j: nat :| j < i && LastDataBefore(fs, j, i) && !fs[j].head.fin;
      assert LastDataBefore(fs, j, i + 1);
    } else if OpenAt(fs, i + 1) {
      var j: nat :| j < i + 1 && LastDataBefore(fs, j, i + 1) && !fs[j].head.fin;
      assert LastDataBefore(fs, j, i);
    }
  }

  lemma {:induction false} TakeAllSnoc(cfg: Config, r: Reading, fs: seq<Frame>, n: nat)
    requires n < |fs|
    ensures TakeAll(cfg, r, fs[..n + 1]) == Take(cfg, TakeAll(cfg, r, fs[..n]), fs[n])
    decreases n
  {
    hide Take;
    if n > 0 {
      assert fs[..n + 1][1..] == fs[1..][..n];
      assert fs[..n][1..] == fs[1..][..n - 1];
      TakeAllSnoc(cfg, Take(cfg, r, fs[0]), fs[1..], n - 1);
    }
  }

  /** The reader's state after `n` frames, told from the frames alone. */
  ghost predicate Describes(cfg: Config, fs: seq<Frame>, n: nat, r: Reading)
    requires n <= |fs|
  {
    && r.error.None?
    && r.events == EventsUpTo(cfg, fs, n)
    && r.message.fragmented == OpenAt(fs, n)
    && (OpenAt(fs, n) ==> n > 0 && r.message == Assembly(Some(fs[Start(fs, n - 1)].head.opcode), true,
                                                         Content(cfg.role, fs, Start(fs, n - 1), n)))
    && (OpenAt(fs, n) ==> Begins(fs[Start(fs, n - 1)]))
  }

  /** The message a data frame ends or extends. */
  lemma ExtendedContent(cfg: Config, fs: seq<Frame>, n: nat, r: Reading)
    requires n < |fs| && Describes(cfg, fs, n, r) && Data(fs[n]) && InOrder(OpenAt(fs, n), fs[n].head)
    ensures var s := Start(fs, n);
            && Begins(fs[s])
            && Extended(cfg.role, r.message, fs[n]).opcode == Some(fs[s].head.opcode)
            && Extended(cfg.role, r.message, fs[n]).payload == Content(cfg.role, fs, s, n + 1)
            && (!fs[n].head.fin ==> Extended(cfg.role, r.message, fs[n]).fragmented)
  {
    hide PlainData;
    if Begins(fs[n]) {
      assert Content(cfg.role, fs, n, n) == [];
    }
  }

  /** One frame: accepted exactly when legal at its place, with the event it stands for. */
  lemma FrameAccepted(cfg: Config, fs: seq<Frame>, n: nat, r: Reading)
    requires n < |fs| && Describes(cfg, fs, n, r) && Genuine(fs[n])
    ensures Take(cfg, r, fs[n]).error.None? <==> LegalAt(cfg, fs, n)
    ensures LegalAt(cfg, fs, n) ==> Describes(cfg, fs, n + 1, Take(cfg, r, fs[n]))
    ensures !LegalAt(cfg, fs, n) ==>
              Take(cfg, r, fs[n]).events == r.events && Take(cfg, r, fs[n]).error == Some(FaultAt(cfg, fs, n))
  {
    var f := fs[n];
    HeaderRules(cfg.role, OpenAt(fs, n), f.head);
    if HeaderFault(cfg.role, OpenAt(fs, n), f.head).None? {
      OpenAfter(fs, n);
      if Data(f) {
        ExtendedContent(cfg, fs, n, r);
        hide Extended;
        hide JudgeClose;
      } else {
        CloseRules(cfg, PlainData(cfg.role, f));
        hide JudgeClose;
        hide CloseLegal;
        hide PlainData;
        if OpenAt(fs, n) {
          OpenStaysOpen(cfg.role, fs, n);
        }
      }
    }
  }

  lemma OpenStaysOpen(role: Role, fs: seq<Frame>, n: nat)
    requires 0 < n < |fs| && !Data(fs[n])
    ensures Start(fs, n) == Start(fs, n - 1)
    ensures Content(role, fs, Start(fs, n), n + 1) == Content(role, fs, Start(fs, n), n)
  {
  }

  lemma {:induction false} PrefixDescribed(cfg: Config, fs: seq<Frame>, n: nat)
    requires n <= |fs| && LegalUpTo(cfg, fs, n)
    requires forall i :: 0 <= i < |fs| ==> Genuine(fs[i])
    ensures Describes(cfg, fs, n, TakeAll(cfg, NOTHING_READ, fs[..n]))
  {
    hide LegalAt;
    if n > 0 {
      PrefixDescribed(cfg, fs, n - 1);
      TakeAllSnoc(cfg, NOTHING_READ, fs, n - 1);
      FrameAccepted(cfg, fs, n - 1, TakeAll(cfg, NOTHING_READ, fs[..n - 1]));
    }
  }

  /** Frames up to the first illegal one are reported, and nothing from there on. */
  lemma PrefixReported(cfg: Config, fs: seq<Frame>, n: nat)
    requires n <= |fs| && LegalUpTo(cfg, fs, n) && (n < |fs| ==> !LegalAt(cfg, fs, n))
    requires forall i :: 0 <= i < |fs| ==> Genuine(fs[i])
    ensures var r := TakeAll(cfg, NOTHING_READ, fs);
            && r.events == EventsUpTo(cfg, fs, n)
            && r.error == (if n < |fs| then Some(FaultAt(cfg, fs, n)) else None)
            && (n == |fs| ==> Describes(cfg, fs, n, r))
  {
    hide Take;
    hide LegalAt;
    var r := TakeAll(cfg, NOTHING_READ, fs[..n]);
    PrefixDescribed(cfg, fs, n);
    if n == |fs| {
      assert fs[..n] == fs;
    } else {
      FrameAccepted(cfg, fs, n, r);
      TakeAllSnoc(cfg, NOTHING_READ, fs, n);
      assert fs == fs[..n + 1] + fs[n + 1..];
      TakeAllConcat(cfg, NOTHING_READ, fs[..n + 1], fs[n + 1..]);
      TakeAllFailed(cfg, Take(cfg, r, fs[n]), fs[n + 1..]);
    }
  }

  lemma {:induction false} TakeAllConcat(cfg: Config, r: Reading, a: seq<Frame>, b: seq<Frame>)
    ensures TakeAll(cfg, r, a + b) == TakeAll(cfg, TakeAll(cfg, r, a), b)
    decreases |a|
  {
    hide Take;
    if a == [] {
      assert a + b == b;
    } else {
      assert (a + b)[1..] == a[1..] + b;
      TakeAllConcat(cfg, Take(cfg, r, a[0]), a[1..], b);
    }
  }

  /** The tail of a stream that may still become legal. */
  ghost predicate TailLegal(cfg: Config, stream: Stream) {
    match stream.tail
    case Unreadable(_) => false
    case Partial(bytes) =>
      var p := ParseHead(bytes);
      p.Whole? ==> WellFormed(cfg.role, p.head) && InOrder(OpenAt(stream.frames, |stream.frames|), p.head)
  }

  /** The error of a stream whose first `n` frames are legal and whose next is not: that frame's, or that of the tail, 1009
      where it announces too long a payload. */
  ghost function StreamFault(cfg: Config, stream: Stream, n: nat): Option<nat>
    requires n <= |stream.frames|
  {
    if n < |stream.frames| then Some(FaultAt(cfg, stream.frames, n))
    else if TailLegal(cfg, stream) then None
    else if stream.tail.Unreadable? then Some(1009)
    else Some(1002)
  }

  lemma InvalidIsTooLong(s: seq<byte>)
    ensures ParseHead(s).Invalid? ==> ParseHead(s).code == 1009
  {
    hide FirstHead;
    hide DecodeBE;
    hide Pow256;
    if ParseHead(s).Invalid? {
      var first := FirstHead(ReadUInt16BE(s[..2]));
      TopBitTestNeverFires(s[2..2 + RestSize(first)][..8]);
    }
  }

  lemma {:induction false} UnreadableIsTooLong(s: seq<byte>)
    ensures Split(s).tail.Unreadable? ==> Split(s).tail.code == 1009
    decreases |s|
  {
    hide ParseHead;
    InvalidIsTooLong(s);
    if ParseHead(s).Whole? {
      HeadNotEmpty(s);
      if |s| >= ParseHead(s).length + ParseHead(s).head.size {
        UnreadableIsTooLong(s[ParseHead(s).length + ParseHead(s).head.size..]);
      }
    }
  }

  /** For every byte stream in every cutting: the reader fails exactly when the stream leaves the legal language, with that
      fault's code, and has reported exactly the events of the legal frames before that. */
  lemma ExactAcceptance(cfg: Config, chunks: seq<seq<byte>>, n: nat)
    requires var fs := Split(Flatten(chunks)).frames;
             n <= |fs| && LegalUpTo(cfg, fs, n) && (n < |fs| ==> !LegalAt(cfg, fs, n))
    ensures var stream := Split(Flatten(chunks));
            var m := FeedAll(cfg, START, chunks);
            && m.events == EventsUpTo(cfg, stream.frames, n)
            && m.error == StreamFault(cfg, stream, n)
            && (m.error.None? <==> n == |stream.frames| && TailLegal(cfg, stream))
  {
    hide LegalAt;
    hide Take;
    hide FeedAll;
    hide ParseHead;
    var stream := Split(Flatten(chunks));
    var r := TakeAll(cfg, NOTHING_READ, stream.frames);
    ReaderAgrees(cfg, chunks);
    SplitIsGenuine(Flatten(chunks));
    UnreadableIsTooLong(Flatten(chunks));
    hide Split;
    hide FaultAt;
    PrefixReported(cfg, stream.frames, n);
    if stream.tail.Partial? && ParseHead(stream.tail.bytes).Whole? {
      HeaderRules(cfg.role, r.message.fragmented, ParseHead(stream.tail.bytes).head);
    }
  }

  /** There always is such an `n`: the length of the longest legal prefix. */
  lemma {:induction false} LegalPrefixExists(cfg: Config, fs: seq<Frame>, k: nat) returns (n: nat)
    requires k <= |fs| && LegalUpTo(cfg, fs, k)
    ensures k <= n <= |fs| && LegalUpTo(cfg, fs, n) && (n < |fs| ==> !LegalAt(cfg, fs, n))
    decreases |fs| - k
  {
    if k < |fs| && LegalAt(cfg, fs, k) {
      n := LegalPrefixExists(cfg, fs, k + 1);
    } else {
      n := k;
    }
  }

  /** The reader stays without error exactly on the streams of legal frames whose tail may still become one. */
  lemma AcceptedExactly(cfg: Config, chunks: seq<seq<byte>>)
    ensures var stream := Split(Flatten(chunks));
            var m := FeedAll(cfg, START, chunks);
            && (m.error.None? <==> LegalUpTo(cfg, stream.frames, |stream.frames|) && TailLegal(cfg, stream))
            && (m.error.None? ==> m.events == EventsUpTo(cfg, stream.frames, |stream.frames|))
  {
    hide LegalAt;
    hide TailLegal;
    hide FeedAll;
    var n := LegalPrefixExists(cfg, Split(Flatten(chunks)).frames, 0);
    ExactAcceptance(cfg, chunks, n);
  }
}
