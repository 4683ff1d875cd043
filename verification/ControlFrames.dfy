/** Pings and pongs do not interfere: taking them out of any byte stream changes no message, no close and no error. */
module ControlFrames {
  import opened Bytes
  import opened Frames
  import opened Decoder
  import opened Reference
  import Legality

  /** A ping or pong the reader accepts anywhere, also between the fragments of a message. */
  predicate Interjected(role: Role, h: Head) {
    (h.opcode == PING || h.opcode == PONG) && HeaderFault(role, false, h).None?
  }

  function WithoutFrames(role: Role, fs: seq<Frame>): seq<Frame> {
    if fs == [] then []
    else (if Interjected(role, fs[0].head) then [] else [fs[0]]) + WithoutFrames(role, fs[1..])
  }

  /** The byte stream with those frames cut out; a partial frame at its end stays. */
  function WithoutBytes(role: Role, s: seq<byte>): seq<byte>
    decreases |s|
  {
    var p := ParseHead(s);
    if p.Whole? && p.length + p.head.size <= |s| then
      var end := p.length + p.head.size;
      (if Interjected(role, p.head) then [] else s[..end]) + WithoutBytes(role, s[end..])
    else s
  }

  /** All events but pings and pongs. */
  function Undisturbed(events: seq<Event>): seq<Event> {
    if events == [] then []
    else
      var e := events[|events| - 1];
      Undisturbed(events[..|events| - 1]) + if e.Ping? || e.Pong? then [] else [e]
  }

  predicate Similar(a: Reading, b: Reading) {
    a.message == b.message && a.error == b.error && Undisturbed(a.events) == Undisturbed(b.events)
  }

  lemma UndisturbedSnoc(events: seq<Event>, e: Event)
    ensures Undisturbed(events + [e]) == Undisturbed(events) + if e.Ping? || e.Pong? then [] else [e]
  {
    assert (events + [e])[..|events|] == events;
  }

  /** The events one frame adds, whatever came before. */
  function Added(cfg: Config, r: Reading, f: Frame): seq<Event> {
    Take(cfg, r.(events := []), f).events
  }

  lemma TakeAdds(cfg: Config, r: Reading, f: Frame)
    ensures |Added(cfg, r, f)| <= 1
    ensures Take(cfg, r, f) == Take(cfg, r.(events := []), f).(events := r.events + Added(cfg, r, f))
  {
    hide HeaderFault;
    hide Extended;
    hide PlainData;
    hide JudgeClose;
    assert r.events + [] == r.events;
    forall e: Event
      ensures r.events + ([] + [e]) == r.events + [e]
    {
      assert [] + [e] == [e];
    }
  }

  lemma TakeSimilar(cfg: Config, a: Reading, b: Reading, f: Frame)
    requires Similar(a, b)
    ensures Similar(Take(cfg, a, f), Take(cfg, b, f))
  {
    TakeAdds(cfg, a, f);
    TakeAdds(cfg, b, f);
    assert b.(events := []) == a.(events := []);
    hide Take;
    var more := Added(cfg, a, f);
    if more == [] {
      assert a.events + [] == a.events && b.events + [] == b.events;
    } else {
      assert more == [more[0]];
      UndisturbedSnoc(a.events, more[0]);
      UndisturbedSnoc(b.events, more[0]);
    }
  }

  /** Only the frame in hand is overwritten by a ping or pong: the message being assembled persists. */
  lemma InterjectedIsSimilar(cfg: Config, r: Reading, f: Frame)
    requires Interjected(cfg.role, f.head)
    ensures Similar(Take(cfg, r, f), r)
  {
    if r.error.None? {
      assert HeaderFault(cfg.role, r.message.fragmented, f.head).None?;
      var data := PlainData(cfg.role, f);
      UndisturbedSnoc(r.events, if f.head.opcode == PING then Ping(data) else Pong(data));
      hide PlainData;
      hide HeaderFault;
      hide Undisturbed;
      assert !IsData(f.head.opcode);
    }
  }

  lemma {:induction false} FramesDoNotInterfere(cfg: Config, a: Reading, b: Reading, fs: seq<Frame>)
    requires Similar(a, b)
    ensures Similar(TakeAll(cfg, a, fs), TakeAll(cfg, b, WithoutFrames(cfg.role, fs)))
    decreases |fs|
  {
    hide Take;
    hide Interjected;
    hide Undisturbed;
    if fs != [] {
      var without := WithoutFrames(cfg.role, fs);
      if Interjected(cfg.role, fs[0].head) {
        InterjectedIsSimilar(cfg, a, fs[0]);
        FramesDoNotInterfere(cfg, Take(cfg, a, fs[0]), b, fs[1..]);
        assert without == WithoutFrames(cfg.role, fs[1..]);
      } else {
        assert without[0] == fs[0] && without[1..] == WithoutFrames(cfg.role, fs[1..]);
        TakeSimilar(cfg, a, b, fs[0]);
        FramesDoNotInterfere(cfg, Take(cfg, a, fs[0]), Take(cfg, b, fs[0]), fs[1..]);
      }
    }
  }

  /** A header is read from its own bytes alone. */
  lemma HeadIsLocal(s: seq<byte>, end: nat, t: seq<byte>)
    requires ParseHead(s).Whole? && ParseHead(s).length <= end <= |s|
    ensures ParseHead(s[..end] + t) == ParseHead(s)
  {
    hide FirstHead;
    hide RestHead;
    hide ReadUInt16BE;
    var n := ParseHead(s).length;
    var s' := s[..end] + t;
    assert s'[..2] == s[..2];
    assert s'[2..n] == s[2..n];
  }

  lemma {:induction false} SplitWithout(role: Role, s: seq<byte>)
    ensures Split(WithoutBytes(role, s)) == Stream(WithoutFrames(role, Split(s).frames), Split(s).tail)
    decreases |s|
  {
    hide ParseHead;
    hide Interjected;
    var p := ParseHead(s);
    if p.Whole? {
      HeadNotEmpty(s);
      var end := p.length + p.head.size;
      if end <= |s| {
        var rest, later := Split(s[end..]), WithoutBytes(role, s[end..]);
        var f := Frame(p.head, s[p.length..end]);
        assert Split(s).frames[0] == f && Split(s).frames[1..] == rest.frames;
        SplitWithout(role, s[end..]);
        if Interjected(role, p.head) {
          assert [] + later == later;
        } else {
          HeadIsLocal(s, end, later);
          assert (s[..end] + later)[end..] == later;
          assert (s[..end] + later)[p.length..end] == s[p.length..end];
        }
      }
    }
  }

  /** For every byte stream and every cutting of it with and without its pings and pongs: the same messages, closes and
      error. */
  lemma ControlFramesDoNotInterfere(cfg: Config, chunks: seq<seq<byte>>, without: seq<seq<byte>>)
    requires Flatten(without) == WithoutBytes(cfg.role, Flatten(chunks))
    ensures var m, m' := FeedAll(cfg, START, chunks), FeedAll(cfg, START, without);
            Undisturbed(m.events) == Undisturbed(m'.events) && m.error == m'.error
  {
    hide FeedAll;
    hide Take;
    hide ParseHead;
    hide Undisturbed;
    ReaderAgrees(cfg, chunks);
    ReaderAgrees(cfg, without);
    SplitWithout(cfg.role, Flatten(chunks));
    FramesDoNotInterfere(cfg, NOTHING_READ, NOTHING_READ, Split(Flatten(chunks)).frames);
  }
}
