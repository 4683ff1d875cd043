/** However a byte stream is cut into chunks, the reader ends in the same state with the same events. */
module Chunking {
  import opened Bytes
  import opened Masking
  import opened Frames
  import opened Decoder

  /** Consuming a payload in two pieces is consuming it at once: the key position is carried over the cut. */
  lemma ConsumeSplit(cfg: Config, m: Machine, a: seq<byte>, b: seq<byte>)
    requires m.error.None? && |b| > 0 && m.consumed + |a| + |b| <= m.head.size
    ensures Consume(cfg, m, a).error.None?
    ensures Consume(cfg, Consume(cfg, m, a), b) == Consume(cfg, m, a + b)
  {
    PlainConcat(cfg.role, m.head, m.consumed, a, b);
    hide Plain;
    hide EmitMessage;
    hide HandleControl;
    var x := Plain(cfg.role, m.head, m.consumed, a);
    var y := Plain(cfg.role, m.head, m.consumed + |a|, b);
    assert (m.message.payload + x) + y == m.message.payload + (x + y);
    assert (m.control + x) + y == m.control + (x + y);
  }

  lemma PlainConcat(role: Role, h: Head, consumed: nat, a: seq<byte>, b: seq<byte>)
    ensures Plain(role, h, consumed, a + b) == Plain(role, h, consumed, a) + Plain(role, h, consumed + |a|, b)
  {
    XoredConcat(KeyOf(h.mask), consumed, a, b);
  }

  // ---- unread bytes are only ever taken from the front

  lemma UnreadIsPassive(cfg: Config, m: Machine, u: seq<byte>)
    requires m.error.None?
    ensures HandleHeader(cfg, m.(unread := u)) == HandleHeader(cfg, m).(unread := u)
  {
  }

  lemma ConsumePassive(cfg: Config, m: Machine, raw: seq<byte>, u: seq<byte>)
    requires m.error.None? && m.consumed + |raw| <= m.head.size
    ensures Consume(cfg, m.(unread := u), raw) == Consume(cfg, m, raw).(unread := u)
  {
    hide Plain;
    hide JudgeClose;
  }

  lemma HeaderStepFeed(cfg: Config, m: Machine, x: seq<byte>)
    requires Ok(m) && Ready(m) && (m.next == Header1 || m.next == Header2)
    ensures Ready(Feed(m, x))
    ensures Step(cfg, Feed(m, x)) == Feed(Step(cfg, m), x)
  {
    hide HandleHeader;
    hide FirstHead;
    hide RestHead;
    hide RestSize;
    var n := NextSize(m);
    assert Feed(m, x).unread[..n] == m.unread[..n];
    assert Feed(m, x).unread[n..] == m.unread[n..] + x;
    if m.next == Header1 {
      var h := FirstHead(ReadUInt16BE(m.unread[..2]));
      var m1 := m.(head := h, consumed := 0, control := [], unread := m.unread[2..]);
      UnreadIsPassive(cfg, m1, m1.unread + x);
    } else {
      var m1 := m.(unread := m.unread[n..]);
      match RestHead(m.head, m.unread[..n])
      case Refused(_) =>
      case Complete(h) => UnreadIsPassive(cfg, m1.(head := h), m1.unread + x);
    }
  }

  lemma TakeFeed(cfg: Config, m: Machine, k: nat, x: seq<byte>)
    requires m.error.None? && k <= |m.unread| && m.consumed + k <= m.head.size
    ensures TakePayload(cfg, Feed(m, x), k) == Feed(TakePayload(cfg, m, k), x)
  {
    hide Consume;
    assert Feed(m, x).unread[..k] == m.unread[..k];
    assert Feed(m, x).unread[k..] == m.unread[k..] + x;
    ConsumePassive(cfg, m, m.unread[..k], m.unread[k..]);
    ConsumePassive(cfg, m, m.unread[..k], m.unread[k..] + x);
  }

  lemma CutAgain<T>(u: seq<T>, j: nat, k: nat)
    requires j + k <= |u|
    ensures u[..j] + u[j..j + k] == u[..j + k]
    ensures u[j..][..k] == u[j..j + k]
    ensures u[j..][k..] == u[j + k..]
  {
  }

  lemma TakeSplit(cfg: Config, m: Machine, j: nat, k: nat)
    requires m.error.None? && k > 0 && j + k <= |m.unread| && m.consumed + j + k <= m.head.size
    ensures TakePayload(cfg, m, j).error.None?
    ensures TakePayload(cfg, TakePayload(cfg, m, j), k) == TakePayload(cfg, m, j + k)
  {
    var a, b := m.unread[..j], m.unread[j..j + k];
    CutAgain(m.unread, j, k);
    ConsumeSplit(cfg, m, a, b);
    ConsumePassive(cfg, m, a, m.unread[j..]);
    ConsumePassive(cfg, Consume(cfg, m, a), b, m.unread[j + k..]);
    ConsumePassive(cfg, m, a + b, m.unread[j + k..]);
    hide Consume;
  }

  /** Taking any part of the available payload first does not change where parsing ends. */
  lemma {:induction false} DrainPartial(cfg: Config, m: Machine, k: nat)
    requires Ok(m) && m.next == Payload && 0 < k && k <= Available(m)
    ensures Ok(TakePayload(cfg, m, k))
    ensures Drain(cfg, TakePayload(cfg, m, k)) == Drain(cfg, m)
  {
    hide Consume;
    var all := Available(m);
    if k < all {
      TakeSplit(cfg, m, k, all - k);
      var m1 := TakePayload(cfg, m, k);
      assert m1.next == Payload && Available(m1) == all - k;
      assert Step(cfg, m1) == Step(cfg, m);
    }
  }

  /** Parsing what has arrived before more arrives changes nothing. */
  lemma {:induction false} DrainFeed(cfg: Config, m: Machine, x: seq<byte>)
    requires Ok(m)
    ensures Drain(cfg, Feed(Drain(cfg, m), x)) == Drain(cfg, Feed(m, x))
    decreases |m.unread|
  {
    hide Step;
    hide TakePayload;
    if Ready(m) {
      var m1 := Step(cfg, m);
      if m.next == Payload {
        var k := Available(m);
        assert m1 == TakePayload(cfg, m, k) by {
          StepPayload(cfg, m);
        }
        TakeFeed(cfg, m, k, x);
        DrainPartial(cfg, Feed(m, x), k);
      } else {
        HeaderStepFeed(cfg, m, x);
      }
      DrainFeed(cfg, m1, x);
    }
  }

  lemma StepPayload(cfg: Config, m: Machine)
    requires Ok(m) && Ready(m) && m.next == Payload
    ensures Step(cfg, m) == TakePayload(cfg, m, Available(m))
  {
  }

  /** Chunk by chunk and all at once end in the same state: events, error, frame, message and unread bytes. */
  lemma {:induction false} ChunkingIrrelevant(cfg: Config, m: Machine, chunks: seq<seq<byte>>)
    requires Ok(m) && !Ready(m)
    ensures FeedAll(cfg, m, chunks) == Drain(cfg, Feed(m, Flatten(chunks)))
    decreases |chunks|
  {
    hide Step;
    if chunks == [] {
      assert Feed(m, []) == m;
    } else {
      var fed := Feed(m, chunks[0]);
      var later := Flatten(chunks[1..]);
      assert (m.unread + chunks[0]) + later == m.unread + (chunks[0] + later);
      assert Feed(fed, later) == Feed(m, Flatten(chunks));
      DrainFeed(cfg, fed, later);
      ChunkingIrrelevant(cfg, Drain(cfg, fed), chunks[1..]);
    }
  }

  lemma CuttingsAgree(cfg: Config, a: seq<seq<byte>>, b: seq<seq<byte>>)
    requires Flatten(a) == Flatten(b)
    ensures FeedAll(cfg, START, a) == FeedAll(cfg, START, b)
  {
    ChunkingIrrelevant(cfg, START, a);
    ChunkingIrrelevant(cfg, START, b);
  }

  /** Once failed, a reader reports nothing more and keeps its error, whatever arrives. */
  lemma {:induction false} ErrorIsAbsorbing(cfg: Config, m: Machine, chunks: seq<seq<byte>>)
    requires Ok(m) && m.error.Some?
    ensures FeedAll(cfg, m, chunks) == m.(unread := m.unread + Flatten(chunks))
    decreases |chunks|
  {
    if chunks == [] {
      assert m.unread + [] == m.unread;
    } else {
      var m1 := Feed(m, chunks[0]);
      ErrorIsAbsorbing(cfg, m1, chunks[1..]);
      assert (m.unread + chunks[0]) + Flatten(chunks[1..]) == m.unread + Flatten(chunks);
    }
  }

  /** A reader that has not failed holds back less than the part it waits for: at most 11 bytes, none inside a payload. */
  lemma LeftoverBound(cfg: Config, m: Machine)
    requires Ok(m)
    ensures var r := Drain(cfg, m);
            r.error.None? ==> |r.unread| < NextSize(r) && |r.unread| <= 11 && (r.next == Payload ==> r.unread == [])
  {
  }
}
