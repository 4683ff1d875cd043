/** Frame headers of RFC 6455 section 5.2: the two-stage read of the reader and the writer's encoder. */
module Frames {
  import opened Bytes
  import opened Masking

  const CONTINUATION: bv8 := 0x00
  const TEXT: bv8 := 0x01
  const BINARY: bv8 := 0x02
  const CLOSE: bv8 := 0x08
  const PING: bv8 := 0x09
  const PONG: bv8 := 0x0A

  const MAX_SAFE_INTEGER: nat := 9007199254740991

  predicate IsControl(opcode: bv8) {
    (opcode >> 3) & 1 == 1
  }

  predicate IsData(opcode: bv8) {
    opcode == CONTINUATION || opcode == TEXT || opcode == BINARY
  }

  /** A frame header; `size7` is the length field of the first two bytes, `size` the payload length itself. */
  datatype Head = Head(fin: bool, rsv1: bool, rsv2: bool, rsv3: bool, opcode: bv8,
                       hasMask: bool, size7: nat, size: nat, mask: bv32)

  // ---- reading

  /** The first two bytes; a length that follows later leaves `size` at 0. */
  function FirstHead(bits: bv16): Head {
    var size7 := (bits & 0x7F) as byte as nat;
    Head((bits >> 15) & 1 == 1, (bits >> 14) & 1 == 1, (bits >> 13) & 1 == 1, (bits >> 12) & 1 == 1,
         ((bits >> 8) & 0xF) as bv8, (bits >> 7) & 1 == 1, size7, if size7 < 126 then size7 else 0, 0)
  }

  function SizeWidth(size7: nat): nat {
    if size7 == 127 then 8 else if size7 == 126 then 2 else 0
  }

  /** How many header bytes follow the first two. */
  function RestSize(head: Head): nat {
    SizeWidth(head.size7) + if head.hasMask then 4 else 0
  }

  datatype RestResult = Complete(head: Head) | Refused(code: nat)

  /** The rest of the header: extended length and mask. */
  function RestHead(head: Head, rest: seq<byte>): RestResult
    requires |rest| == RestSize(head)
  {
    var width := SizeWidth(head.size7);
    var size := if width == 0 then head.size else DecodeBE(rest[..width]);
    if width == 8 && (size / Pow256(8)) % 2 == 1 then Refused(1002)
    else if width == 8 && size > MAX_SAFE_INTEGER then Refused(1009)
    else Complete(head.(size := size, mask := if head.hasMask then ReadUInt32BE(rest[width..]) else head.mask))
  }

  /** A header read at once from the front of a byte string, with its length. */
  datatype Parsed = Short | Invalid(code: nat) | Whole(head: Head, length: nat)

  function ParseHead(s: seq<byte>): Parsed {
    if |s| < 2 then Short
    else
      var first := FirstHead(ReadUInt16BE(s[..2]));
      var length := 2 + RestSize(first);
      if |s| < length then Short
      else
        match RestHead(first, s[2..length])
        case Refused(code) => Invalid(code)
        case Complete(head) => Whole(head, length)
  }

  /** The most-significant-bit test on a 64-bit size can never fire: eight bytes stay below 2^64. */
  lemma TopBitTestNeverFires(rest: seq<byte>)
    requires |rest| == 8
    ensures (DecodeBE(rest) / Pow256(8)) % 2 != 1
  {
    DecodedBound(rest);
  }

  // ---- writing

  function Size7(size: nat): nat {
    if size > 0xFFFF then 127 else if size > 125 then 126 else size
  }

  function BitField(fin: bool, compressed: bool, opcode: bv8, masked: bool, size7: nat): bv16
    requires size7 < 128
  {
    ((if fin then 1 else 0 as bv16) << 15)
    | ((if compressed then 1 else 0 as bv16) << 14)
    | ((opcode as bv16) << 8)
    | ((if masked then 1 else 0 as bv16) << 7)
    | (size7 as byte as bv16)
  }

  function MaskBytes(mask: Option<bv32>): seq<byte> {
    match mask
    case None => []
    case Some(m) => WriteUInt32BE(m)
  }

  /** The header `frameHeader` produces. */
  function HeaderBytes(fin: bool, compressed: bool, opcode: bv8, mask: Option<bv32>, size: nat): seq<byte> {
    WriteUInt16BE(BitField(fin, compressed, opcode, mask.Some?, Size7(size)))
    + EncodeBE(size, SizeWidth(Size7(size)))
    + MaskBytes(mask)
  }

  /** The fields a reader should find in that header. */
  function HeadOf(fin: bool, compressed: bool, opcode: bv8, mask: Option<bv32>, size: nat): Head {
    Head(fin, compressed, false, false, opcode, mask.Some?, Size7(size), size, if mask.Some? then mask.value else 0)
  }

  /** Writes a field behind those already written. */
  method WriteBytes(buffer: array<byte>, bytes: seq<byte>, offset: nat)
    requires offset + |bytes| <= buffer.Length
    modifies buffer
    ensures buffer[..offset + |bytes|] == old(buffer[..offset]) + bytes
  {
    ghost var written := buffer[..offset];
    for i := 0 to |bytes|
      invariant buffer[..offset] == written
      invariant buffer[offset..offset + i] == bytes[..i]
    {
      buffer[offset + i] := bytes[i];
    }
  }

  /** `frameHeader`: fills a fresh buffer of exactly the header's size, field by field. */
  method FrameHeader(opcode: bv8, fin: bool, mask: Option<bv32>, payloadSize: nat, compressionBit: bool)
    returns (buffer: array<byte>)
    requires payloadSize <= MAX_SAFE_INTEGER
    ensures fresh(buffer)
    ensures buffer[..] == HeaderBytes(fin, compressionBit, opcode, mask, payloadSize)
  {
    hide BitField;
    hide WriteUInt16BE;
    hide WriteUInt32BE;
    hide EncodeBE;
    var headerSize, offset, payloadSize7bit := 2, 0, 0;
    if payloadSize > 0xFFFF {
      payloadSize7bit := 127;
      headerSize := headerSize + 8;
    } else if payloadSize > 125 {
      payloadSize7bit := 126;
      headerSize := headerSize + 2;
    } else {
      payloadSize7bit := payloadSize;
    }
    if mask.Some? {
      headerSize := headerSize + 4;
    }
    buffer := new byte[headerSize];
    var bits := WriteUInt16BE(BitField(fin, compressionBit, opcode, mask.Some?, payloadSize7bit));
    WriteBytes(buffer, bits, offset);
    offset := offset + 2;
    if payloadSize7bit == 127 {
      WriteBytes(buffer, EncodeBE(payloadSize, 8), offset);
      offset := offset + 8;
    } else if payloadSize7bit == 126 {
      WriteBytes(buffer, EncodeBE(payloadSize, 2), offset);
      offset := offset + 2;
    }
    assert buffer[..offset] == bits + EncodeBE(payloadSize, SizeWidth(payloadSize7bit));
    if mask.Some? {
      WriteBytes(buffer, WriteUInt32BE(mask.value), offset);
      offset := offset + 4;
    }
    assert buffer[..] == buffer[..offset];
  }

  // ---- the two agree

  lemma BitFieldRoundTrip(fin: bool, compressed: bool, opcode: bv8, masked: bool, size7: nat)
    requires opcode < 16 && size7 < 128
    ensures FirstHead(BitField(fin, compressed, opcode, masked, size7))
         == Head(fin, compressed, false, false, opcode, masked, size7, if size7 < 126 then size7 else 0, 0)
  {
    ByteRoundTrip(size7);
    SmallByte(size7);
    BitFieldBits(fin, compressed, opcode, masked, size7 as byte);
  }

  lemma SmallByte(n: nat)
    requires n < 128
    ensures (n as byte) < 128
  {
    ByteRoundTrip(n);
  }

  lemma BitFieldBits(fin: bool, compressed: bool, opcode: bv8, masked: bool, low: byte)
    requires opcode < 16 && low < 128
    ensures var bits := ((if fin then 1 else 0 as bv16) << 15)
                      | ((if compressed then 1 else 0 as bv16) << 14)
                      | ((opcode as bv16) << 8)
                      | ((if masked then 1 else 0 as bv16) << 7)
                      | (low as bv16);
            && (bits & 0x7F) as byte == low
            && ((bits >> 15) & 1 == 1) == fin
            && ((bits >> 14) & 1 == 1) == compressed
            && (bits >> 13) & 1 == 0
            && (bits >> 12) & 1 == 0
            && ((bits >> 8) & 0xF) as bv8 == opcode
            && ((bits >> 7) & 1 == 1) == masked
  {
  }

  /** Round trip: whatever follows it, the header is read back field by field and the read stops at the payload. */
  lemma HeaderRoundTrip(fin: bool, compressed: bool, opcode: bv8, mask: Option<bv32>, size: nat, payload: seq<byte>)
    requires opcode < 16 && size <= MAX_SAFE_INTEGER
    ensures var bytes := HeaderBytes(fin, compressed, opcode, mask, size);
            ParseHead(bytes + payload) == Whole(HeadOf(fin, compressed, opcode, mask, size), |bytes|)
  {
    hide FirstHead;
    hide BitField;
    hide ReadUInt16BE;
    hide WriteUInt16BE;
    hide RestHead;
    var size7 := Size7(size);
    var bits := BitField(fin, compressed, opcode, mask.Some?, size7);
    var bytes := HeaderBytes(fin, compressed, opcode, mask, size);
    BitFieldRoundTrip(fin, compressed, opcode, mask.Some?, size7);
    Word16RoundTrip(bits);
    assert (bytes + payload)[..2] == WriteUInt16BE(bits);
    assert (bytes + payload)[2..|bytes|] == EncodeBE(size, SizeWidth(size7)) + MaskBytes(mask);
    RestRoundTrip(FirstHead(bits), mask, size);
  }

  lemma RestRoundTrip(first: Head, mask: Option<bv32>, size: nat)
    requires size <= MAX_SAFE_INTEGER
    requires first.size7 == Size7(size) && first.hasMask == mask.Some? && first.mask == 0
    requires first.size == if first.size7 < 126 then first.size7 else 0
    ensures RestHead(first, EncodeBE(size, SizeWidth(first.size7)) + MaskBytes(mask))
         == Complete(first.(size := size, mask := if mask.Some? then mask.value else 0))
  {
    hide ReadUInt32BE;
    hide WriteUInt32BE;
    var width := SizeWidth(first.size7);
    var rest := EncodeBE(size, width) + MaskBytes(mask);
    assert rest[..width] == EncodeBE(size, width) && rest[width..] == MaskBytes(mask);
    if width > 0 {
      assert Pow256(8) == 0x1_0000_0000_0000_0000 && Pow256(2) == 0x1_0000;
      SizeRoundTrip(size, width);
    }
    if mask.Some? {
      Word32RoundTrip(mask.value);
    }
  }

  /** No header that a reader would take for the same size and masking is shorter. */
  lemma HeaderIsShortest(fin: bool, compressed: bool, opcode: bv8, mask: Option<bv32>, size: nat, s: seq<byte>)
    requires opcode < 16 && size <= MAX_SAFE_INTEGER
    requires ParseHead(s).Whole? && ParseHead(s).head.size == size && ParseHead(s).head.hasMask == mask.Some?
    ensures |HeaderBytes(fin, compressed, opcode, mask, size)| <= ParseHead(s).length
  {
    var first := FirstHead(ReadUInt16BE(s[..2]));
    var width := SizeWidth(first.size7);
    assert width == 2 ==> size < 0x1_0000 by {
      if width == 2 {
        DecodedBound(s[2..2 + RestSize(first)][..2]);
        assert Pow256(2) == 0x1_0000;
      }
    }
  }
}
