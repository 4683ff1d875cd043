/** Close codes, number by number: which a reader lets through and which a writer may send. */
module CodeRules {
  import opened Bytes
  import opened Masking
  import opened Frames
  import opened Writer
  import opened Decoder
  import Interleaving
  import Reference
  import RoundTrip
  import WireFormat

  /** The codes a server takes from a client, and a client from a server. */
  lemma CodesRead(code: nat)
    ensures CodeAllowed(Server, code) <==> 1000 <= code <= 1003 || 1007 <= code <= 1010 || 3000 <= code <= 4999
    ensures CodeAllowed(Client, code) <==>
              1000 <= code <= 1003 || 1007 <= code <= 1009 || 1011 <= code <= 1014 || 3000 <= code <= 4999
  {
  }

  /** The codes a client may pass to `close`, and a server. */
  lemma CodesSent(code: nat)
    ensures Interleaving.CodeMaySend(true, code) <==> code == 1000 || 3000 <= code <= 4999
    ensures Interleaving.CodeMaySend(false, code) <==>
              1000 <= code <= 1003 || 1007 <= code <= 1009 || 1011 <= code <= 1014 || 3000 <= code <= 4999
  {
  }

  function CodeBytes(code: nat): (s: seq<byte>)
    requires code < 0x1_0000
    ensures |s| == 2
  {
    [(code / 256) as byte, (code % 256) as byte]
  }

  function MaskedCode(code: nat, key: Key): (s: seq<byte>)
    requires code < 0x1_0000
    ensures |s| == 2
  {
    [CodeBytes(code)[0] ^ key[0], CodeBytes(code)[1] ^ key[1]]
  }

  /** A Close frame with a code and no reason, as it arrives: masked with `key` at a server. */
  function CloseOnWire(role: Role, code: nat, key: Key): seq<byte>
    requires code < 0x1_0000
  {
    if role == Client then [0x88, 0x02] + CodeBytes(code) else [0x88, 0x82] + key + MaskedCode(code, key)
  }

  lemma CodeEncoded(code: nat)
    requires code < 0x1_0000
    ensures EncodeBE(code, 2) == CodeBytes(code) && DecodeBE(CodeBytes(code)) == code
  {
    assert EncodeBE(code / 256, 1) == EncodeBE(code / 256 / 256, 0) + [(code / 256 % 256) as byte];
    assert Pow256(2) == 0x1_0000;
    SizeRoundTrip(code, 2);
  }

  lemma CodeIsMasked(code: nat, key: Key)
    requires code < 0x1_0000
    ensures Xored(key, 0, CodeBytes(code)) == MaskedCode(code, key)
  {
    hide CodeBytes;
  }

  lemma CloseLeads()
    ensures WireFormat.FirstByte(true, false, CLOSE) == 0x88
    ensures WireFormat.SecondByte(false, 2) == 0x02 && WireFormat.SecondByte(true, 2) == 0x82
  {
  }

  /** The frame those bytes are. */
  function CloseSent(role: Role, code: nat, key: Key): Sent
    requires code < 0x1_0000
  {
    Sent(OutFrame(CLOSE, CodeBytes(code), true), if role == Client then None else Some(ReadUInt32BE(key)))
  }

  lemma CloseFrameBytes(role: Role, code: nat, key: Key)
    requires code < 0x1_0000
    ensures FrameBytes(CloseSent(role, code, key)) == CloseOnWire(role, code, key)
  {
    hide FrameBytes;
    hide Xored;
    hide KeyOf;
    hide CodeBytes;
    hide MaskedCode;
    hide ReadUInt32BE;
    hide LEBytes;
    hide LEWord;
    hide WireFormat.FirstByte;
    hide WireFormat.SecondByte;
    var s := CloseSent(role, code, key);
    WireFormat.ShortFrame(s.frame, s.mask);
    CloseLeads();
    KeyReadBack(key);
    CodeIsMasked(code, key);
    Interleaving.Assoc([0x88, 0x82], key, MaskedCode(code, key));
  }

  lemma CloseIsSplit(role: Role, code: nat, key: Key)
    requires code < 0x1_0000
    ensures Reference.Split(CloseOnWire(role, code, key))
         == Reference.Stream([RoundTrip.FrameFor(CloseSent(role, code, key))], Reference.Partial([]))
  {
    hide FrameBytes;
    hide CloseOnWire;
    hide CodeBytes;
    hide ReadUInt32BE;
    var s := CloseSent(role, code, key);
    CloseFrameBytes(role, code, key);
    assert WireBytes([s]) == FrameBytes(s) + [] && WireBytes([s]) + [] == FrameBytes(s);
    RoundTrip.WireReadBack([s], []);
    RoundTrip.NothingToSplit();
    assert RoundTrip.FramesFor([s]) + [] == [RoundTrip.FrameFor(s)];
    hide RoundTrip.FrameFor;
    hide Reference.Split;
  }

  lemma CloseIsTaken(cfg: Config, code: nat, key: Key)
    requires code < 0x1_0000
    ensures var r := Reference.Take(cfg, Reference.NOTHING_READ, RoundTrip.FrameFor(CloseSent(cfg.role, code, key)));
            match JudgeClose(cfg, CodeBytes(code))
            case Reject(e) => r.events == [] && r.error == Some(e)
            case Accept(close) => r.events == [close] && r.error.None?
  {
    var s := CloseSent(cfg.role, code, key);
    var setup := Interleaving.Setup(cfg.role == Server, false, 1, text => []);
    RoundTrip.MaskIrrelevant(setup, cfg, Reference.NOTHING_READ, s);
    RoundTrip.ControlHeadFits(setup, cfg, s.frame, false);
    RoundTrip.PayloadReadBack(setup, cfg, RoundTrip.Plainly(setup, s.frame));
    hide HeaderFault;
    hide Reference.PlainData;
    hide BodyBytes;
    hide JudgeClose;
    hide CodeBytes;
    hide ReadUInt32BE;
  }

  lemma CodeIsJudged(cfg: Config, code: nat)
    requires cfg.checkCloseCode && code < 0x1_0000
    ensures JudgeClose(cfg, CodeBytes(code)) == if CodeAllowed(cfg.role, code) then Accept(Close(code, None)) else Reject(1002)
  {
    CodeEncoded(code);
    assert CodeBytes(code)[..2] == CodeBytes(code);
    hide CodeBytes;
    hide CodeAllowed;
  }

  lemma OneTaken(cfg: Config, f: Reference.Frame)
    ensures var r := Reference.TakeAll(cfg, Reference.NOTHING_READ, [f]);
            && r == Reference.Take(cfg, Reference.NOTHING_READ, f)
            && Reference.StreamError(cfg, r, Reference.Partial([])) == r.error
  {
    hide Reference.Take;
    assert [f][1..] == [];
  }

  /** A checking reader reports a Close frame with these codes and no others; the others are protocol errors. */
  lemma CodeIsRead(cfg: Config, code: nat, key: Key, chunks: seq<seq<byte>>)
    requires cfg.checkCloseCode && code < 0x1_0000 && Flatten(chunks) == CloseOnWire(cfg.role, code, key)
    ensures var m := FeedAll(cfg, START, chunks);
            var legal := || 1000 <= code <= 1003 || 1007 <= code <= 1009 || 3000 <= code <= 4999
                         || (if cfg.role == Server then code == 1010 else 1011 <= code <= 1014);
            if legal then m.error.None? && m.events == [Close(code, None)]
            else m.error == Some(1002) && m.events == []
  {
    hide FeedAll;
    hide JudgeClose;
    hide Reference.Split;
    hide Reference.Take;
    hide Reference.TakeAll;
    hide Reference.StreamError;
    hide CloseOnWire;
    hide CloseSent;
    hide CodeBytes;
    hide CodeAllowed;
    CloseIsSplit(cfg.role, code, key);
    CloseIsTaken(cfg, code, key);
    Reference.ReaderAgrees(cfg, chunks);
    OneTaken(cfg, RoundTrip.FrameFor(CloseSent(cfg.role, code, key)));
    CodeIsJudged(cfg, code);
    CodesRead(code);
    assert cfg.role == Server || cfg.role == Client;
  }
}
