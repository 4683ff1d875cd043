/** Frames as byte values, following RFC 6455 sections 5.2, 5.3 and 7.4 and saying each number out. */
module WireFormat {
  import opened Bytes
  import opened Masking
  import opened Frames
  import opened Writer
  import opened Decoder

  // ---- numbers

  /** Two bytes, the first the more significant. */
  lemma TwoBytes(s: seq<byte>)
    requires |s| == 2
    ensures DecodeBE(s) == s[0] as nat * 256 + s[1] as nat
  {
    assert s[..1][..0] == [] && DecodeBE(s[..1]) == DecodeBE(s[..1][..0]) * 256 + s[0] as nat;
  }

  lemma FourBytesMore(s: seq<byte>)
    requires |s| >= 4
    ensures var n := |s|;
            DecodeBE(s) == DecodeBE(s[..n - 4]) * 4294967296
                           + s[n - 4] as nat * 16777216 + s[n - 3] as nat * 65536 + s[n - 2] as nat * 256 + s[n - 1] as nat
  {
    var n := |s|;
    assert s[..n - 1][..n - 2] == s[..n - 2] && s[..n - 2][..n - 3] == s[..n - 3] && s[..n - 3][..n - 4] == s[..n - 4];
  }

  lemma EightBytes(s: seq<byte>)
    requires |s| == 8
    ensures DecodeBE(s) == s[0] as nat * 72057594037927936 + s[1] as nat * 281474976710656 + s[2] as nat * 1099511627776
                           + s[3] as nat * 4294967296 + s[4] as nat * 16777216 + s[5] as nat * 65536
                           + s[6] as nat * 256 + s[7] as nat
  {
    FourBytesMore(s);
    FourBytesMore(s[..4]);
    assert s[..4][..0] == [] && DecodeBE([]) == 0;
    hide DecodeBE;
  }

  lemma KeyBytes(mask: bv32)
    ensures KeyOf(mask) == [((mask >> 24) & 0xFF) as byte, ((mask >> 16) & 0xFF) as byte,
                            ((mask >> 8) & 0xFF) as byte, (mask & 0xFF) as byte]
  {
  }

  // ---- the first two bytes of a header

  /** FIN, the three reserved bits, the opcode, the mask bit and the length field, each where the standard puts it. */
  lemma FirstBytes(b0: byte, b1: byte)
    ensures var h := FirstHead(ReadUInt16BE([b0, b1]));
            && (h.fin <==> b0 & 0x80 != 0)
            && (h.rsv1 <==> b0 & 0x40 != 0) && (h.rsv2 <==> b0 & 0x20 != 0) && (h.rsv3 <==> b0 & 0x10 != 0)
            && h.opcode == b0 & 0x0F
            && (h.hasMask <==> b1 & 0x80 != 0)
            && h.size7 == (b1 & 0x7F) as nat
            && (h.size7 <= 125 ==> h.size == h.size7)
  {
    FirstBits(b0, b1);
  }

  lemma FirstBits(b0: byte, b1: byte)
    ensures var bits := ReadUInt16BE([b0, b1]);
            && ((bits >> 15) & 1 == 1 <==> b0 & 0x80 != 0)
            && ((bits >> 14) & 1 == 1 <==> b0 & 0x40 != 0)
            && ((bits >> 13) & 1 == 1 <==> b0 & 0x20 != 0)
            && ((bits >> 12) & 1 == 1 <==> b0 & 0x10 != 0)
            && ((bits >> 8) & 0xF) as bv8 == b0 & 0x0F
            && ((bits >> 7) & 1 == 1 <==> b1 & 0x80 != 0)
            && (bits & 0x7F) as byte == b1 & 0x7F
  {
  }

  /** FIN, the compression bit and the opcode. */
  function FirstByte(fin: bool, compressed: bool, opcode: bv8): byte {
    (if fin then 0x80 else 0) | (if compressed then 0x40 else 0) | opcode
  }

  /** The mask bit and the length field. */
  function SecondByte(masked: bool, size7: nat): byte
    requires size7 < 128
  {
    (if masked then 0x80 else 0) | size7 as byte
  }

  lemma ByteFromBits(b: byte, fin: bool, compressed: bool, opcode: bv8)
    requires (b & 0x80 != 0 <==> fin) && (b & 0x40 != 0 <==> compressed) && b & 0x20 == 0 && b & 0x10 == 0
    requires b & 0x0F == opcode
    ensures b == FirstByte(fin, compressed, opcode)
  {
  }

  lemma ByteFromLow(b: byte, masked: bool, low: byte)
    requires (b & 0x80 != 0 <==> masked) && b & 0x7F == low
    ensures b == (if masked then 0x80 else 0) | low
  {
  }

  /** The two leading bytes written. */
  lemma WrittenBytes(fin: bool, compressed: bool, opcode: bv8, masked: bool, size7: nat)
    requires opcode < 16 && size7 < 128
    ensures WriteUInt16BE(BitField(fin, compressed, opcode, masked, size7))
         == [FirstByte(fin, compressed, opcode), SecondByte(masked, size7)]
  {
    var bits := BitField(fin, compressed, opcode, masked, size7);
    var s := WriteUInt16BE(bits);
    BitFieldRoundTrip(fin, compressed, opcode, masked, size7);
    Word16RoundTrip(bits);
    hide BitField;
    hide WriteUInt16BE;
    hide ReadUInt16BE;
    assert s == [s[0], s[1]];
    FirstBytes(s[0], s[1]);
    hide FirstHead;
    ValueRoundTrip(s[1] & 0x7F);
    hide FirstByte;
    ByteFromBits(s[0], fin, compressed, opcode);
    ByteFromLow(s[1], masked, size7 as byte);
  }

  /** The header on the wire: its length, the two leading bytes, the extended length in two or eight bytes with the most
      significant first, and the mask. */
  lemma HeaderOnWire(fin: bool, compressed: bool, opcode: bv8, mask: Option<bv32>, size: nat)
    requires opcode < 16 && size <= MAX_SAFE_INTEGER
    ensures var h := HeaderBytes(fin, compressed, opcode, mask, size);
            var extended := if size <= 125 then 0 else if size <= 65535 then 2 else 8;
            && |h| == 2 + extended + (if mask.Some? then 4 else 0)
            && h[0] == FirstByte(fin, compressed, opcode)
            && h[1] == SecondByte(mask.Some?, if size <= 125 then size else if size <= 65535 then 126 else 127)
            && (extended > 0 ==> DecodeBE(h[2..2 + extended]) == size)
            && (mask.Some? ==> h[2 + extended..] == KeyOf(mask.value))
  {
    var size7 := Size7(size);
    var width := SizeWidth(size7);
    var h := HeaderBytes(fin, compressed, opcode, mask, size);
    WrittenBytes(fin, compressed, opcode, mask.Some?, size7);
    HeaderParts(fin, compressed, opcode, mask, size);
    hide HeaderBytes;
    hide BitField;
    hide FirstByte;
    hide SecondByte;
    hide WriteUInt16BE;
    hide WriteUInt32BE;
    assert Pow256(8) == 0x1_0000_0000_0000_0000 && Pow256(2) == 0x1_0000;
    hide Pow256;
    hide EncodeBE;
    hide DecodeBE;
    if width > 0 {
      SizeRoundTrip(size, width);
    }
  }

  lemma HeaderParts(fin: bool, compressed: bool, opcode: bv8, mask: Option<bv32>, size: nat)
    requires opcode < 16 && size <= MAX_SAFE_INTEGER
    ensures var h, width := HeaderBytes(fin, compressed, opcode, mask, size), SizeWidth(Size7(size));
            && |h| == 2 + width + (if mask.Some? then 4 else 0)
            && h[..2] == WriteUInt16BE(BitField(fin, compressed, opcode, mask.Some?, Size7(size)))
            && h[2..2 + width] == EncodeBE(size, width)
            && h[2 + width..] == MaskBytes(mask)
  {
    hide BitField;
    hide WriteUInt16BE;
    hide WriteUInt32BE;
    hide EncodeBE;
  }

  // ---- whole frames

  /** The first byte of each kind of frame. */
  lemma Opcodes()
    ensures FirstByte(true, false, TEXT) == 0x81 && FirstByte(true, false, BINARY) == 0x82
    ensures FirstByte(false, false, TEXT) == 0x01 && FirstByte(false, false, BINARY) == 0x02
    ensures FirstByte(false, false, CONTINUATION) == 0x00 && FirstByte(true, false, CONTINUATION) == 0x80
    ensures FirstByte(true, false, CLOSE) == 0x88
    ensures FirstByte(true, false, PING) == 0x89 && FirstByte(true, false, PONG) == 0x8A
    ensures FirstByte(true, true, TEXT) == 0xC1
  {
  }

  /** A masked payload byte is combined with the mask byte whose place is its own modulo 4, as both stand on the wire. */
  lemma FrameOnWire(s: Sent, i: nat)
    requires s.frame.opcode < 16 && |s.frame.payload| <= MAX_SAFE_INTEGER && i < |s.frame.payload|
    ensures var w, n := FrameBytes(s), |HeadBytes(s)|;
            && |w| == n + |s.frame.payload|
            && (s.mask.None? ==> w[n + i] == s.frame.payload[i])
            && (s.mask.Some? ==> n >= 6 && w[n + i] == s.frame.payload[i] ^ w[n - 4 + i % 4])
  {
    HeaderOnWire(s.frame.fin, false, s.frame.opcode, s.mask, |s.frame.payload|);
    hide HeaderBytes;
    hide FirstByte;
    hide SecondByte;
    hide KeyOf;
    hide DecodeBE;
    var h, n := HeadBytes(s), |HeadBytes(s)|;
    if s.mask.Some? {
      assert h[n - 4..] == KeyOf(s.mask.value);
      assert h[n - 4 + i % 4] == KeyOf(s.mask.value)[i % 4];
    }
  }

  /** Short frames altogether. */
  lemma ShortFrame(frame: OutFrame, mask: Option<bv32>)
    requires frame.opcode < 16 && |frame.payload| <= 125
    ensures var lead := [FirstByte(frame.fin, false, frame.opcode), SecondByte(mask.Some?, |frame.payload|)];
            var body := match mask case None => frame.payload case Some(m) => KeyOf(m) + Xored(KeyOf(m), 0, frame.payload);
            FrameBytes(Sent(frame, mask)) == lead + body
  {
    HeaderOnWire(frame.fin, false, frame.opcode, mask, |frame.payload|);
    hide HeaderBytes;
    hide FirstByte;
    hide SecondByte;
    hide KeyOf;
    hide DecodeBE;
    hide Xored;
    var h := HeadBytes(Sent(frame, mask));
    assert h == h[..2] + h[2..] && h[..2] == [h[0], h[1]];
  }

  // ---- the rest of a header, as it is read

  /** The length field 126 announces two more bytes, 127 eight; a length beyond 2^53-1 is refused with 1009, and nothing
      else is; the mask is the last four bytes. */
  lemma RestOnWire(first: Head, rest: seq<byte>)
    requires |rest| == RestSize(first)
    ensures |rest| == (if first.size7 == 126 then 2 else if first.size7 == 127 then 8 else 0) + (if first.hasMask then 4 else 0)
    ensures first.size7 == 126 ==> |rest| >= 2 && RestHead(first, rest).Complete? && RestHead(first, rest).head.size == DecodeBE(rest[..2])
    ensures first.size7 == 127 ==>
              if DecodeBE(rest[..8]) > 9007199254740991 then RestHead(first, rest) == Refused(1009)
              else RestHead(first, rest).Complete? && RestHead(first, rest).head.size == DecodeBE(rest[..8])
    ensures first.size7 < 126 ==> RestHead(first, rest).Complete? && RestHead(first, rest).head.size == first.size
    ensures RestHead(first, rest).Complete? && first.hasMask ==> KeyOf(RestHead(first, rest).head.mask) == rest[|rest| - 4..]
  {
    if first.size7 == 127 {
      TopBitTestNeverFires(rest[..8]);
    }
    hide DecodeBE;
    hide Pow256;
    if first.hasMask {
      KeyReadBack(rest[|rest| - 4..]);
    }
    hide KeyOf;
    hide ReadUInt32BE;
    hide LEBytes;
    hide LEWord;
  }
}
