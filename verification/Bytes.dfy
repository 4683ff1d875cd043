/** Bytes, big- and little-endian words and unsigned big-endian sizes, as Node's `Buffer` reads and writes them. */
module Bytes {
  type byte = bv8

  datatype Option<+T> = None | Some(value: T)

  function ReadUInt16BE(s: seq<byte>): bv16
    requires |s| == 2
  {
    ((s[0] as bv16) << 8) | (s[1] as bv16)
  }

  function WriteUInt16BE(v: bv16): (s: seq<byte>)
    ensures |s| == 2
  {
    [(v >> 8) as byte, (v & 0xFF) as byte]
  }

  function ReadUInt32BE(s: seq<byte>): bv32
    requires |s| == 4
  {
    ((s[0] as bv32) << 24) | ((s[1] as bv32) << 16) | ((s[2] as bv32) << 8) | (s[3] as bv32)
  }

  function WriteUInt32BE(v: bv32): (s: seq<byte>)
    ensures |s| == 4
  {
    [(v >> 24) as byte, ((v >> 16) & 0xFF) as byte, ((v >> 8) & 0xFF) as byte, (v & 0xFF) as byte]
  }

  lemma Word16RoundTrip(v: bv16)
    ensures ReadUInt16BE(WriteUInt16BE(v)) == v
  {
  }

  lemma Word32RoundTrip(v: bv32)
    ensures ReadUInt32BE(WriteUInt32BE(v)) == v
  {
  }

  /** The `width` low bytes of `n`, most significant first. */
  function EncodeBE(n: nat, width: nat): (s: seq<byte>)
    ensures |s| == width
  {
    if width == 0 then [] else EncodeBE(n / 256, width - 1) + [(n % 256) as byte]
  }

  function DecodeBE(s: seq<byte>): nat {
    if s == [] then 0 else DecodeBE(s[..|s| - 1]) * 256 + s[|s| - 1] as nat
  }

  function Pow256(width: nat): nat {
    if width == 0 then 1 else 256 * Pow256(width - 1)
  }

  lemma ByteRoundTrip(n: nat)
    requires n < 256
    ensures (n as byte) as nat == n
  {
    var b := ByteOfValue(n);
    ValueRoundTrip(b);
  }

  lemma ValueRoundTrip(b: byte)
    ensures (b as nat) as byte == b
  {
  }

  lemma {:induction false} ByteOfValue(n: nat) returns (b: byte)
    requires n < 256
    ensures b as nat == n
  {
    if n == 0 {
      b := 0;
    } else {
      var c := ByteOfValue(n - 1);
      assert c != 255;
      NextValue(c);
      b := c + 1;
    }
  }

  lemma NextValue(b: byte)
    requires b != 255
    ensures (b + 1) as nat == b as nat + 1
  {
  }

  lemma {:induction false} SizeRoundTrip(n: nat, width: nat)
    requires n < Pow256(width)
    ensures DecodeBE(EncodeBE(n, width)) == n
  {
    if width > 0 {
      var high := EncodeBE(n / 256, width - 1);
      SizeRoundTrip(n / 256, width - 1);
      ByteRoundTrip(n % 256);
      assert EncodeBE(n, width)[..width - 1] == high;
    }
  }

  lemma {:induction false} DecodedBound(s: seq<byte>)
    ensures DecodeBE(s) < Pow256(|s|)
  {
    if s != [] {
      DecodedBound(s[..|s| - 1]);
    }
  }

  /** Concatenation of a list of byte strings. */
  function Flatten<T>(parts: seq<seq<T>>): seq<T> {
    if parts == [] then [] else parts[0] + Flatten(parts[1..])
  }

  lemma {:induction false} FlattenAppend<T>(a: seq<seq<T>>, b: seq<seq<T>>)
    ensures Flatten(a + b) == Flatten(a) + Flatten(b)
  {
    if a == [] {
      assert a + b == b;
    } else {
      assert (a + b)[1..] == a[1..] + b;
      FlattenAppend(a[1..], b);
    }
  }
}
