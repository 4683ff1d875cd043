/** `ProtocolWriter`: frames on the wire, the fragmentation of messages, and the writer that masks and sends them. */
module Writer {
  import opened Bytes
  import opened Masking
  import opened Frames

  datatype OutFrame = OutFrame(opcode: bv8, payload: seq<byte>, fin: bool)

  /** A frame with the mask drawn for it: none on a server. */
  datatype Sent = Sent(frame: OutFrame, mask: Option<bv32>)

  function HeadBytes(s: Sent): seq<byte> {
    HeaderBytes(s.frame.fin, false, s.frame.opcode, s.mask, |s.frame.payload|)
  }

  function BodyBytes(s: Sent): (r: seq<byte>)
    ensures |r| == |s.frame.payload|
  {
    if s.mask.Some? then Xored(KeyOf(s.mask.value), 0, s.frame.payload) else s.frame.payload
  }

  function FrameBytes(s: Sent): seq<byte> {
    HeadBytes(s) + BodyBytes(s)
  }

  function WireBytes(log: seq<Sent>): seq<byte> {
    if log == [] then [] else FrameBytes(log[0]) + WireBytes(log[1..])
  }

  /** The payloads as transmitted, without headers. */
  function BodiesOf(log: seq<Sent>): seq<byte> {
    if log == [] then [] else BodyBytes(log[0]) + BodiesOf(log[1..])
  }

  lemma {:induction false} WireConcat(a: seq<Sent>, b: seq<Sent>)
    ensures WireBytes(a + b) == WireBytes(a) + WireBytes(b)
  {
    hide FrameBytes;
    if a == [] {
      assert a + b == b;
    } else {
      assert (a + b)[1..] == a[1..] + b;
      WireConcat(a[1..], b);
    }
  }

  lemma WireSnoc(log: seq<Sent>, s: Sent)
    ensures WireBytes(log + [s]) == WireBytes(log) + FrameBytes(s)
  {
    hide FrameBytes;
    WireConcat(log, [s]);
    assert WireBytes([s]) == FrameBytes(s) + [];
  }

  // ---- masks

  /** A server draws no mask, `zeroMasking` the mask 0. */
  function MaskFor(isClient: bool, zeroMasking: bool, random: bv32): Option<bv32> {
    if isClient then Some(if zeroMasking then 0 else random) else None
  }

  /** Payload bytes as `#writeFrame` transmits them: masked only by a client with real masks. */
  function Transmitted(isClient: bool, zeroMasking: bool, random: bv32, payload: seq<byte>): seq<byte> {
    if isClient && !zeroMasking then Xored(KeyOf(random), 0, payload) else payload
  }

  /** Skipping the mask 0 is applying it. */
  lemma TransmittedIsBody(isClient: bool, zeroMasking: bool, random: bv32, frame: OutFrame)
    ensures Transmitted(isClient, zeroMasking, random, frame.payload)
         == BodyBytes(Sent(frame, MaskFor(isClient, zeroMasking, random)))
  {
    XoredZero(0, frame.payload);
  }

  // ---- fragmentation

  /** The frame `send` writes for the fragment that begins at `from`. */
  function FragmentAt(text: bool, data: seq<byte>, max: nat, from: nat): OutFrame
    requires from <= |data|
  {
    var end := if from + max >= |data| then |data| else from + max;
    OutFrame(if from > 0 then CONTINUATION else if text then TEXT else BINARY, data[from..end], from + max >= |data|)
  }

  function FragmentsFrom(text: bool, data: seq<byte>, max: nat, from: nat): (fs: seq<OutFrame>)
    requires from <= |data| && max >= 1
    ensures fs != []
    decreases |data| - from
  {
    [FragmentAt(text, data, max, from)]
    + if from + max >= |data| then [] else FragmentsFrom(text, data, max, from + max)
  }

  function Fragments(text: bool, data: seq<byte>, max: nat): (fs: seq<OutFrame>)
    requires max >= 1
  {
    FragmentsFrom(text, data, max, 0)
  }

  function Payloads(fs: seq<OutFrame>): (ps: seq<seq<byte>>)
    ensures |ps| == |fs|
  {
    seq(|fs|, i requires 0 <= i < |fs| => fs[i].payload)
  }

  /** The fragments partition the data: full ones first, a kind for the first, the last alone final. */
  ghost predicate Partitions(fs: seq<OutFrame>, first: bv8, data: seq<byte>, max: nat) {
    && fs != []
    && Flatten(Payloads(fs)) == data
    && (forall i :: 0 <= i < |fs| ==> fs[i].opcode == if i == 0 then first else CONTINUATION)
    && (forall i :: 0 <= i < |fs| ==> (fs[i].fin <==> i == |fs| - 1))
    && (forall i :: 0 <= i < |fs| - 1 ==> |fs[i].payload| == max)
    && |fs[|fs| - 1].payload| <= max
    && (data != [] ==> fs[|fs| - 1].payload != [])
  }

  lemma PartitionCons(f: OutFrame, rest: seq<OutFrame>, tail: seq<byte>, max: nat)
    requires Partitions(rest, CONTINUATION, tail, max) && tail != [] && !f.fin && |f.payload| == max
    ensures Partitions([f] + rest, f.opcode, f.payload + tail, max)
  {
    var fs := [f] + rest;
    assert Payloads(fs) == [f.payload] + Payloads(rest);
    assert Flatten(Payloads(fs)) == f.payload + Flatten(Payloads(rest)) by {
      assert ([f.payload] + Payloads(rest))[1..] == Payloads(rest);
    }
    hide Flatten;
    hide Payloads;
    forall i | 1 <= i < |fs|
      ensures fs[i] == rest[i - 1]
    {
    }
  }

  lemma PartitionOne(f: OutFrame, max: nat)
    requires f.fin && |f.payload| <= max
    ensures Partitions([f], f.opcode, f.payload, max)
  {
    assert Payloads([f]) == [f.payload];
    assert Flatten([f.payload]) == f.payload + Flatten([]);
  }

  lemma {:induction false} PartitionFrom(text: bool, data: seq<byte>, max: nat, from: nat)
    requires from <= |data| && max >= 1 && (from == |data| ==> from == 0)
    ensures Partitions(FragmentsFrom(text, data, max, from), FragmentAt(text, data, max, from).opcode, data[from..], max)
    decreases |data| - from
  {
    hide Partitions;
    var f := FragmentAt(text, data, max, from);
    if from + max >= |data| {
      PartitionOne(f, max);
      assert FragmentsFrom(text, data, max, from) == [f] && data[from..] == f.payload;
    } else {
      PartitionFrom(text, data, max, from + max);
      PartitionCons(f, FragmentsFrom(text, data, max, from + max), data[from + max..], max);
      assert data[from..] == f.payload + data[from + max..];
    }
  }

  lemma FragmentsPartition(text: bool, data: seq<byte>, max: nat)
    requires max >= 1
    ensures Partitions(Fragments(text, data, max), if text then TEXT else BINARY, data, max)
  {
    PartitionFrom(text, data, max, 0);
    assert data[0..] == data;
  }
}
