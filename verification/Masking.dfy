/** Masking of payloads: the byte-wise definition of RFC 6455 section 5.3 and the word-at-a-time `Masker`. */
module Masking {
  import opened Bytes

  type Key = k: seq<byte> | |k| == 4 witness [0, 0, 0, 0]

  function Xor(a: byte, b: byte): byte {
    a ^ b
  }

  /** `data` combined with the key, its first byte taking key byte `offset % 4`. */
  function Xored(key: Key, offset: nat, data: seq<byte>): (r: seq<byte>)
    ensures |r| == |data|
  {
    seq(|data|, i requires 0 <= i < |data| => Xor(data[i], key[(offset + i) % 4]))
  }

  /** The key bytes a 32-bit mask stands for. */
  function KeyOf(mask: bv32): Key {
    WriteUInt32BE(mask)
  }

  lemma XoredConcat(key: Key, offset: nat, a: seq<byte>, b: seq<byte>)
    ensures Xored(key, offset, a + b) == Xored(key, offset, a) + Xored(key, offset + |a|, b)
  {
    hide Xor;
  }

  lemma XoredTwice(key: Key, offset: nat, data: seq<byte>)
    ensures Xored(key, offset, Xored(key, offset, data)) == data
  {
    hide Xor;
    forall i | 0 <= i < |data|
      ensures Xored(key, offset, Xored(key, offset, data))[i] == data[i]
    {
      XorTwice(data[i], key[(offset + i) % 4]);
    }
  }

  lemma XorTwice(a: byte, b: byte)
    ensures Xor(Xor(a, b), b) == a
  {
  }

  lemma SameResidue(a: nat, b: nat, quads: nat)
    requires a == 4 * quads + b
    ensures a % 4 == b % 4
  {
    assert a == 4 * (quads + b / 4) + b % 4;
  }

  lemma LaterResidue(a: nat, b: nat, more: nat)
    requires a % 4 == b % 4
    ensures (a + more) % 4 == (b + more) % 4
  {
    SameResidue(a + more, a % 4 + more, a / 4);
    SameResidue(b + more, b % 4 + more, b / 4);
  }

  function Rotated(key: Key, turn: nat): Key
    requires turn < 4
  {
    key[turn..] + key[..turn]
  }

  /** Starting with a rotated key is starting at a later key byte. */
  lemma XoredRotated(key: Key, turn: nat, offset: nat, offset': nat, data: seq<byte>)
    requires turn < 4 && offset % 4 == (offset' + turn) % 4
    ensures Xored(Rotated(key, turn), offset', data) == Xored(key, offset, data)
  {
    hide Xor;
    hide Rotated;
    forall i | 0 <= i < |data|
      ensures Xored(Rotated(key, turn), offset', data)[i] == Xored(key, offset, data)[i]
    {
      LaterResidue(offset, offset' + turn, i);
      RotatedIndex(key, turn, offset + i, offset' + i);
    }
  }

  lemma RotatedIndex(key: Key, turn: nat, position: nat, position': nat)
    requires turn < 4 && position % 4 == (position' + turn) % 4
    ensures Rotated(key, turn)[position' % 4] == key[position % 4]
  {
    var i := position' % 4;
    assert position % 4 == (i + turn) % 4;
    if i + turn < 4 {
      assert Rotated(key, turn)[i] == key[turn..][i];
    } else {
      assert Rotated(key, turn)[i] == key[..turn][i - (4 - turn)];
    }
  }

  lemma XoredMod(key: Key, offset: nat, offset': nat, data: seq<byte>)
    requires offset % 4 == offset' % 4
    ensures Xored(key, offset', data) == Xored(key, offset, data)
  {
    assert Rotated(key, 0) == key;
    XoredRotated(key, 0, offset, offset', data);
  }

  /** `s` with the bytes from `lo` to `hi` masked and all others left alone. */
  function Masked(key: Key, offset: nat, s: seq<byte>, lo: nat, hi: nat): (r: seq<byte>)
    requires lo <= hi <= |s|
    ensures |r| == |s|
  {
    s[..lo] + Xored(key, offset, s[lo..hi]) + s[hi..]
  }

  /** Masking two adjacent stretches, the key position carried over, masks their union. */
  lemma MaskedConcat(key: Key, offset: nat, s: seq<byte>, lo: nat, mid: nat, hi: nat)
    requires lo <= mid <= hi <= |s|
    ensures Masked(key, offset + (mid - lo), Masked(key, offset, s, lo, mid), mid, hi) == Masked(key, offset, s, lo, hi)
  {
    assert s[lo..hi] == s[lo..mid] + s[mid..hi];
    XoredConcat(key, offset, s[lo..mid], s[mid..hi]);
    assert Masked(key, offset, s, lo, mid)[mid..hi] == s[mid..hi];
  }

  function Sum(lengths: seq<nat>): nat {
    if lengths == [] then 0 else lengths[0] + Sum(lengths[1..])
  }

  /** Consecutive pieces masked one after the other, the key position carried over modulo 4 as `#offset` is. */
  function MaskedPieces(key: Key, offset: nat, s: seq<byte>, lo: nat, lengths: seq<nat>): seq<byte>
    requires lo + Sum(lengths) <= |s|
    decreases |lengths|
  {
    if lengths == [] then s
    else
      var mid := lo + lengths[0];
      MaskedPieces(key, (offset + lengths[0]) % 4, Masked(key, offset, s, lo, mid), mid, lengths[1..])
  }

  /** However the stretch is cut into pieces, they come to the masking of the whole. */
  lemma {:induction false} PiecesMaskWhole(key: Key, offset: nat, s: seq<byte>, lo: nat, lengths: seq<nat>)
    requires lo + Sum(lengths) <= |s|
    ensures MaskedPieces(key, offset, s, lo, lengths) == Masked(key, offset, s, lo, lo + Sum(lengths))
    decreases |lengths|
  {
    if lengths == [] {
      MaskedNothing(key, offset, s, lo);
    } else {
      var n, rest := lengths[0], Sum(lengths[1..]);
      var t := Masked(key, offset, s, lo, lo + n);
      PiecesMaskWhole(key, (offset + n) % 4, t, lo + n, lengths[1..]);
      XoredMod(key, offset + n, (offset + n) % 4, t[lo + n..lo + n + rest]);
      MaskedConcat(key, offset, s, lo, lo + n, lo + n + rest);
      hide Xored;
    }
  }

  lemma XoredOne(key: Key, offset: nat, b: byte)
    ensures Xored(key, offset, [b]) == [Xor(b, key[offset % 4])]
  {
    hide Xor;
  }

  lemma XoredFour(key: Key, b0: byte, b1: byte, b2: byte, b3: byte)
    ensures Xored(key, 0, [b0, b1, b2, b3]) == [Xor(b0, key[0]), Xor(b1, key[1]), Xor(b2, key[2]), Xor(b3, key[3])]
  {
    hide Xor;
  }

  lemma MaskedOne(key: Key, offset: nat, s: seq<byte>, lo: nat, at: nat, v: byte)
    requires lo <= at < |s|
    requires Xored(key, offset + (at - lo), [s[at]]) == [v]
    ensures Masked(key, offset, s, lo, at)[at] == s[at]
    ensures Masked(key, offset, s, lo, at)[at := v] == Masked(key, offset, s, lo, at + 1)
  {
    var front := s[..lo] + Xored(key, offset, s[lo..at]);
    XoredConcat(key, offset, s[lo..at], [s[at]]);
    assert s[lo..at + 1] == s[lo..at] + [s[at]];
    UpdateSplit(front, s[at..], v);
    assert s[at..][1..] == s[at + 1..];
  }

  lemma UpdateSplit<T>(a: seq<T>, c: seq<T>, v: T)
    requires c != []
    ensures (a + c)[|a| := v] == a + [v] + c[1..]
  {
  }

  lemma MaskedFour(key: Key, s: seq<byte>, after: seq<byte>, at: nat, r: seq<byte>)
    requires at + 4 <= |s| == |after|
    requires r == Xored(key, 0, [s[at], s[at + 1], s[at + 2], s[at + 3]])
    requires after == s[at := r[0]][at + 1 := r[1]][at + 2 := r[2]][at + 3 := r[3]]
    ensures after == Masked(key, 0, s, at, at + 4)
  {
    hide Xored;
    assert s[at..at + 4] == [s[at], s[at + 1], s[at + 2], s[at + 3]];
  }

  lemma MaskedStretch(key: Key, offset: nat, s: seq<byte>, lo: nat, hi: nat)
    requires lo <= hi <= |s|
    ensures Masked(key, offset, s, lo, hi)[lo..hi] == Xored(key, offset, s[lo..hi])
    ensures forall j :: 0 <= j < |s| && !(lo <= j < hi) ==> Masked(key, offset, s, lo, hi)[j] == s[j]
  {
    hide Xored;
  }

  lemma MaskedNothing(key: Key, offset: nat, s: seq<byte>, at: nat)
    requires at <= |s|
    ensures Masked(key, offset, s, at, at) == s
  {
  }

  lemma MaskedWord(key: Key, s: seq<byte>, lo: nat, i: nat)
    requires lo + 4 * i + 4 <= |s|
    ensures Masked(key, 0, Masked(key, 0, s, lo, lo + 4 * i), lo + 4 * i, lo + 4 * i + 4) == Masked(key, 0, s, lo, lo + 4 * i + 4)
  {
    var at := lo + 4 * i;
    MaskedConcat(key, 0, s, lo, at, at + 4);
    XoredMod(key, 4 * i, 0, Masked(key, 0, s, lo, at)[at..at + 4]);
  }

  /** Masking with the zero mask changes nothing (`zeroMasking`). */
  lemma XoredZero(offset: nat, data: seq<byte>)
    ensures Xored(KeyOf(0), offset, data) == data
  {
    hide Xor;
    hide KeyOf;
    forall i | 0 <= i < |data|
      ensures Xored(KeyOf(0), offset, data)[i] == data[i]
    {
      ZeroKey(data[i], (offset + i) % 4);
    }
  }

  lemma ZeroKey(b: byte, k: nat)
    requires k < 4
    ensures Xor(b, KeyOf(0)[k]) == b
  {
    assert KeyOf(0) == [0, 0, 0, 0];
  }

  /** The simple form: one byte at a time over a whole buffer. */
  method XorWithMaskingKey(maskingKey: Key, data: array<byte>)
    modifies data
    ensures data[..] == Xored(maskingKey, 0, old(data[..]))
  {
    ghost var before := data[..];
    for i := 0 to data.Length
      invariant data[..] == Masked(maskingKey, 0, before, 0, i)
    {
      data[i] := Xor(data[i], maskingKey[i % 4]);
      XoredOne(maskingKey, i, before[i]);
      MaskedOne(maskingKey, 0, before, 0, i, data[i]);
    }
  }

  // ---- words

  function Uint32Swap(value: bv32): bv32 {
    ((value & 0xFF000000) >> 24) | ((value & 0x00FF0000) >> 8) | ((value & 0x0000FF00) << 8) | ((value & 0x000000FF) << 24)
  }

  /** The bytes of a word, lowest first: what a `Uint32Array` view shows of memory on the (little-endian) platform. */
  function LEBytes(w: bv32): (s: seq<byte>)
    ensures |s| == 4
  {
    [(w & 0xFF) as byte, ((w >> 8) & 0xFF) as byte, ((w >> 16) & 0xFF) as byte, (w >> 24) as byte]
  }

  function LEWord(b0: byte, b1: byte, b2: byte, b3: byte): bv32 {
    (b0 as bv32) | ((b1 as bv32) << 8) | ((b2 as bv32) << 16) | ((b3 as bv32) << 24)
  }

  lemma SwapIsBigEndian(mask: bv32)
    ensures LEBytes(Uint32Swap(mask)) == KeyOf(mask)
  {
  }

  /** Shifting a word around by whole bytes rotates its bytes. */
  lemma RotatedBytes(w: bv32)
    ensures LEBytes(w) == Rotated(LEBytes(w), 0)
    ensures LEBytes((w >> 8) | (w << 24)) == Rotated(LEBytes(w), 1)
    ensures LEBytes((w >> 16) | (w << 16)) == Rotated(LEBytes(w), 2)
    ensures LEBytes((w >> 24) | (w << 8)) == Rotated(LEBytes(w), 3)
  {
  }

  /** One word operation masks four bytes. */
  lemma WordXor(b0: byte, b1: byte, b2: byte, b3: byte, m: bv32)
    ensures LEBytes(LEWord(b0, b1, b2, b3) ^ m)
         == [Xor(b0, LEBytes(m)[0]), Xor(b1, LEBytes(m)[1]), Xor(b2, LEBytes(m)[2]), Xor(b3, LEBytes(m)[3])]
  {
    WordBytes(b0, b1, b2, b3);
    XorBytes(LEWord(b0, b1, b2, b3), m);
    hide *;
  }

  lemma XorBytes(w: bv32, m: bv32)
    ensures LEBytes(w ^ m) == [Xor(LEBytes(w)[0], LEBytes(m)[0]), Xor(LEBytes(w)[1], LEBytes(m)[1]),
                               Xor(LEBytes(w)[2], LEBytes(m)[2]), Xor(LEBytes(w)[3], LEBytes(m)[3])]
  {
  }

  lemma WordBytes(b0: byte, b1: byte, b2: byte, b3: byte)
    ensures LEBytes(LEWord(b0, b1, b2, b3)) == [b0, b1, b2, b3]
  {
  }

  /** The word operation of the fast path on the four bytes of one `Uint32Array` element. */
  method XorWord(b0: byte, b1: byte, b2: byte, b3: byte, mask: bv32) returns (r: seq<byte>)
    ensures r == Xored(LEBytes(mask), 0, [b0, b1, b2, b3])
  {
    hide *;
    r := LEBytes(LEWord(b0, b1, b2, b3) ^ mask);
    WordXor(b0, b1, b2, b3, mask);
    XoredFour(LEBytes(mask), b0, b1, b2, b3);
  }

  lemma WholeWords(offset: nat, words: nat)
    requires offset < 4
    ensures (offset + 4 * words) % 4 == offset
  {
  }

  /** What a new mask is made from: a number, or four bytes such as random ones. */
  datatype NewKey = Number(value: bv32) | FourBytes(bytes: Key)

  /** Both readings of four key bytes stand for them. */
  lemma KeyReadBack(bytes: Key)
    ensures KeyOf(ReadUInt32BE(bytes)) == bytes
    ensures LEBytes(LEWord(bytes[0], bytes[1], bytes[2], bytes[3])) == bytes
  {
    WordBytes(bytes[0], bytes[1], bytes[2], bytes[3]);
  }

  /** The masker of a reader or writer: a key, its four word rotations and the key position carried across calls. */
  class Masker {
    var maskByte: Key
    var maskUint32: seq<bv32>
    var offset: nat

    /** Each buffered word agrees with the key bytes it stands for. */
    ghost predicate Valid()
      reads this
    {
      && |maskUint32| == 4
      && offset < 4
      && forall k :: 0 <= k < 4 ==> LEBytes(maskUint32[k]) == Rotated(maskByte, k)
    }

    constructor ()
      ensures Valid()
    {
      maskByte := [0, 0, 0, 0];
      maskUint32 := [0, 0, 0, 0];
      offset := 0;
    }

    /** Returns the new mask as a number. */
    method NewMask(mask: NewKey) returns (result: bv32)
      modifies this
      ensures Valid()
      ensures maskByte == KeyOf(result) && offset == 0
      ensures result == match mask case Number(value) => value case FourBytes(bytes) => ReadUInt32BE(bytes)
    {
      hide LEBytes;
      hide LEWord;
      hide KeyOf;
      hide ReadUInt32BE;
      hide Rotated;
      hide Uint32Swap;
      offset := 0;
      var w: bv32;
      match mask {
        case FourBytes(bytes) =>
          result, w := ReadUInt32BE(bytes), LEWord(bytes[0], bytes[1], bytes[2], bytes[3]);
          maskByte := bytes;
          KeyReadBack(bytes);
        case Number(value) =>
          result, w := value, Uint32Swap(value);
          maskByte := LEBytes(w);
          SwapIsBigEndian(value);
      }
      maskUint32 := [w, (w >> 8) | (w << 24), (w >> 16) | (w << 16), (w >> 24) | (w << 8)];
      RotatedBytes(w);
    }

    /** Masks the view of `length` bytes at `byteOffset`, by words where the view is aligned. */
    method MaskInPlace(buffer: array<byte>, byteOffset: nat, length: nat)
      requires Valid()
      requires byteOffset + length <= buffer.Length
      modifies `offset, buffer
      ensures Valid()
      ensures offset == (old(offset) + length) % 4
      ensures buffer[..] == Masked(maskByte, old(offset), old(buffer[..]), byteOffset, byteOffset + length)
    {
      hide Masked;
      hide Xored;
      hide LEBytes;
      hide Rotated;
      var i := 0;
      ghost var before := buffer[..];
      MaskedNothing(maskByte, offset, before, byteOffset);
      if byteOffset % 4 == 0 && length >= 4 {
        var leftover := length % 4;
        var words := (length - leftover) / 4;
        assert 4 * words == length - leftover;
        MaskAligned(buffer, byteOffset, words);
        WholeWords(offset, words);
        if leftover == 0 {
          return;
        }
        i := words * 4;
      }
      MaskTail(buffer, byteOffset, length, i, offset, before);
    }

    /** The word path: the rotation buffered for the current key position serves every word. */
    method MaskAligned(buffer: array<byte>, byteOffset: nat, words: nat)
      requires Valid()
      requires byteOffset + 4 * words <= buffer.Length
      modifies buffer
      ensures buffer[..] == Masked(maskByte, offset, old(buffer[..]), byteOffset, byteOffset + 4 * words)
    {
      XoredRotated(maskByte, offset, offset, 0, buffer[byteOffset..byteOffset + 4 * words]);
      MaskWords(buffer, byteOffset, words, maskUint32[offset]);
    }

    /** The byte loop, for what the word loop left over. */
    method MaskTail(buffer: array<byte>, byteOffset: nat, length: nat, start: nat, ghost first: nat, ghost before: seq<byte>)
      requires Valid() && start <= length
      requires byteOffset + length <= buffer.Length == |before|
      requires offset == (first + start) % 4
      requires buffer[..] == Masked(maskByte, first, before, byteOffset, byteOffset + start)
      modifies `offset, buffer
      ensures Valid()
      ensures offset == (first + length) % 4
      ensures buffer[..] == Masked(maskByte, first, before, byteOffset, byteOffset + length)
    {
      hide Xor;
      hide Masked;
      hide LEBytes;
      hide Rotated;
      var i := start;
      while i < length
        invariant i <= length && Valid()
        invariant offset == (first + i) % 4
        invariant buffer[..] == Masked(maskByte, first, before, byteOffset, byteOffset + i)
      {
        var at := byteOffset + i;
        XoredOne(maskByte, first + i, before[at]);
        MaskedOne(maskByte, first, before, byteOffset, at, Xor(before[at], maskByte[offset]));
        buffer[at] := Xor(buffer[at], maskByte[offset]);
        offset := offset + 1;
        if offset == 4 {
          offset := 0;
        }
        i := i + 1;
      }
    }

    /** The `Uint32Array` loop: `words` aligned words combined with one rotation of the mask. */
    static method MaskWords(buffer: array<byte>, byteOffset: nat, words: nat, mask: bv32)
      requires byteOffset + 4 * words <= buffer.Length
      modifies buffer
      ensures buffer[..] == Masked(LEBytes(mask), 0, old(buffer[..]), byteOffset, byteOffset + 4 * words)
    {
      hide *;
      ghost var before := buffer[..];
      ghost var key := LEBytes(mask);
      MaskedNothing(key, 0, before, byteOffset);
      for i := 0 to words
        invariant buffer[..] == Masked(key, 0, before, byteOffset, byteOffset + 4 * i)
      {
        MaskWord(buffer, byteOffset + 4 * i, mask);
        MaskedWord(key, before, byteOffset, i);
      }
    }

    static method MaskWord(buffer: array<byte>, at: nat, mask: bv32)
      requires at + 4 <= buffer.Length
      modifies buffer
      ensures buffer[..] == Masked(LEBytes(mask), 0, old(buffer[..]), at, at + 4)
    {
      hide *;
      ghost var before := buffer[..];
      var r := XorWord(buffer[at], buffer[at + 1], buffer[at + 2], buffer[at + 3], mask);
      buffer[at], buffer[at + 1], buffer[at + 2], buffer[at + 3] := r[0], r[1], r[2], r[3];
      MaskedFour(LEBytes(mask), before, buffer[..], at, r);
    }
  }
}
