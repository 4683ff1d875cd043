/** A server that calls `close` clears its reader's close-code check between two chunks. What is read is then what a reader
    that never checked would read, unless a Close code had been refused before. */
module CloseCodes {
  import opened Bytes
  import opened Frames
  import opened Decoder
  import opened Reader
  import Chunking

  /** The reader with its check of close codes switched off. */
  function Trusting(cfg: Config): Config {
    cfg.(checkCloseCode := false)
  }

  /** Only a refused Close code depends on the check. */
  lemma StepTrusted(cfg: Config, m: Machine)
    requires Ok(m) && Ready(m) && Step(cfg, m).error.None?
    ensures Step(Trusting(cfg), m) == Step(cfg, m)
  {
    hide HeaderFault;
    hide FirstHead;
    hide RestHead;
    hide Plain;
    hide CodeAllowed;
  }

  /** An error stays. */
  lemma DrainFails(cfg: Config, m: Machine)
    requires Ok(m) && m.error.Some?
    ensures Drain(cfg, m) == m
  {
  }

  lemma {:induction false} DrainTrusted(cfg: Config, m: Machine)
    requires Ok(m) && Drain(cfg, m).error.None?
    ensures Drain(Trusting(cfg), m) == Drain(cfg, m)
    decreases |m.unread|
  {
    hide Step;
    hide Ready;
    hide Ok;
    if Ready(m) {
      var r := Step(cfg, m);
      if r.error.Some? {
        DrainFails(cfg, r);
      }
      StepTrusted(cfg, m);
      DrainTrusted(cfg, r);
    }
  }

  /** A run without error does not depend on the check. */
  lemma {:induction false} RunTrusted(cfg: Config, m: Machine, chunks: seq<seq<byte>>)
    requires Ok(m) && FeedAll(cfg, m, chunks).error.None?
    ensures FeedAll(Trusting(cfg), m, chunks) == FeedAll(cfg, m, chunks)
    decreases |chunks|
  {
    hide Drain;
    if chunks != [] {
      var r := Drain(cfg, Feed(m, chunks[0]));
      if r.error.Some? {
        Chunking.ErrorIsAbsorbing(cfg, r, chunks[1..]);
      }
      DrainTrusted(cfg, Feed(m, chunks[0]));
      RunTrusted(cfg, r, chunks[1..]);
    }
  }

  lemma {:induction false} FeedConcat(cfg: Config, m: Machine, a: seq<seq<byte>>, b: seq<seq<byte>>)
    requires Ok(m)
    ensures FeedAll(cfg, m, a + b) == FeedAll(cfg, FeedAll(cfg, m, a), b)
    decreases |a|
  {
    hide Drain;
    if a == [] {
      assert a + b == b;
    } else {
      assert (a + b)[1..] == a[1..] + b;
      FeedConcat(cfg, Drain(cfg, Feed(m, a[0])), a[1..], b);
    }
  }

  /** A reader whose check is switched off between `before` and `after`: one that never checked, if nothing failed before;
      otherwise one that always did. */
  lemma ClosingServer(cfg: Config, before: seq<seq<byte>>, after: seq<seq<byte>>)
    ensures var m := FeedAll(cfg, START, before);
            FeedAll(Trusting(cfg), m, after) == FeedAll(if m.error.None? then Trusting(cfg) else cfg, START, before + after)
  {
    var m := FeedAll(cfg, START, before);
    hide FeedAll;
    if m.error.None? {
      RunTrusted(cfg, START, before);
      FeedConcat(Trusting(cfg), START, before, after);
    } else {
      FeedConcat(cfg, START, before, after);
      Chunking.ErrorIsAbsorbing(cfg, m, after);
      Chunking.ErrorIsAbsorbing(Trusting(cfg), m, after);
    }
  }

  method StopChecking(r: ProtocolReader, cs: seq<Chunk>, ghost data: seq<seq<byte>>)
    requires r.Valid() && ChunksFor(r, cs, data)
    modifies r`checkCloseCode
    ensures r.Valid() && ChunksFor(r, cs, data) && r.Repr == old(r.Repr)
    ensures r.Abs() == old(r.Abs()) && r.Cfg() == Trusting(old(r.Cfg()))
  {
    r.AcceptAnyCloseCode();
  }

  /** The object: some chunks, then `close` of a server, then the others. */
  method TransformClosing(r: ProtocolReader, cs: seq<Chunk>, count: nat, ghost data: seq<seq<byte>>)
    requires r.Valid() && r.Abs() == START && count <= |cs| == |data| && ChunksFor(r, cs, data)
    modifies r, r.masker, r.scratch, r.Repr, set c | c in cs :: c.buffer
    ensures r.Valid()
    ensures var cfg, m := old(r.Cfg()), FeedAll(old(r.Cfg()), START, data[..count]);
            r.Abs() == FeedAll(if m.error.None? then Trusting(cfg) else cfg, START, data)
  {
    ghost var cfg := r.Cfg();
    assert cs[0..] == cs && data[0..] == data && data == data[..count] + data[count..];
    assert data[0..count] == data[..count] && data[count..|cs|] == data[count..];
    ClosingServer(cfg, data[..count], data[count..]);
    hide ProtocolReader.Valid;
    hide ProtocolReader.Core;
    hide ProtocolReader.PhaseOk;
    hide ProtocolReader.Abs;
    hide ProtocolReader.Cfg;
    hide ChunksFor;
    hide FeedAll;
    TransformAll(r, cs, 0, count, data);
    StopChecking(r, cs[count..], data[count..]);
    TransformAll(r, cs, count, |cs|, data);
  }
}
