/** The writer as an object: `send`, `close`, `ping` and `pong` of a writer no other caller uses meanwhile. */
module ProtocolWriters {
  import opened Bytes
  import opened Masking
  import opened Frames
  import opened Writer
  import opened Interleaving
  import Decoder

  function Mask(setup: Setup, random: bv32): Option<bv32> {
    MaskFor(setup.isClient, setup.zeroMasking, random)
  }

  /** Frames with the masks drawn for them, one random word each. */
  function Drawn(setup: Setup, fs: seq<OutFrame>, randoms: seq<bv32>): (log: seq<Sent>)
    requires |randoms| >= |fs|
    ensures |log| == |fs|
  {
    seq(|fs|, i requires 0 <= i < |fs| => Sent(fs[i], Mask(setup, randoms[i])))
  }

  /** A writer no other caller uses meanwhile: the frame mutex is free at every call, the message mutex until `close` takes
      it for good. A `send` or `close` after that waits for ever, so none is possible. */
  class ProtocolWriter {
    const setup: Setup
    const masker: Masker
    var checkCloseCode: bool
    var bufferedAmount: int
    // held by a `close` that has returned or thrown
    var messageLocked: bool
    // all bytes given to the stream
    var wire: seq<byte>

    ghost predicate Valid()
      reads masker
    {
      masker.Valid() && setup.maxFragmentSize >= 1
    }

    constructor (setup: Setup)
      requires setup.maxFragmentSize >= 1
      ensures Valid() && fresh(masker) && wire == [] && bufferedAmount == 0 && this.setup == setup
      ensures checkCloseCode && !messageLocked
    {
      this.setup := setup;
      masker := new Masker();
      checkCloseCode, messageLocked, bufferedAmount, wire := true, false, 0, [];
    }

    /** `#writeFrame` of the payload `buffer[lo..hi]`, masked where it lies by a client with real masks. */
    method WriteFrame(opcode: bv8, buffer: array<byte>, lo: nat, hi: nat, isFinal: bool, random: bv32)
      requires Valid() && lo <= hi <= buffer.Length && hi - lo <= MAX_SAFE_INTEGER
      modifies `wire, masker, buffer
      ensures Valid()
      ensures wire == old(wire)
                      + FrameBytes(Sent(OutFrame(opcode, old(buffer[lo..hi]), isFinal), Mask(setup, random)))
      ensures buffer[..] == old(buffer[..lo])
                            + BodyBytes(Sent(OutFrame(opcode, old(buffer[lo..hi]), isFinal), Mask(setup, random)))
                            + old(buffer[hi..])
    {
      hide HeaderBytes;
      hide BodyBytes;
      hide Transmitted;
      ghost var frame := OutFrame(opcode, buffer[lo..hi], isFinal);
      TransmittedIsBody(setup.isClient, setup.zeroMasking, random, frame);
      var mask := Mask(setup, random);
      MaskPayload(buffer, lo, hi, random);
      var head := FrameHeader(opcode, isFinal, mask, hi - lo, false);
      wire := wire + head[..];
      if lo < hi {
        wire := wire + buffer[lo..hi];
      }
    }

    /** Only a client with real masks draws one and applies it. */
    method MaskPayload(buffer: array<byte>, lo: nat, hi: nat, random: bv32)
      requires Valid() && lo <= hi <= buffer.Length
      modifies masker, buffer
      ensures Valid()
      ensures buffer[lo..hi] == Transmitted(setup.isClient, setup.zeroMasking, random, old(buffer[lo..hi]))
      ensures buffer[..] == old(buffer[..lo]) + buffer[lo..hi] + old(buffer[hi..])
    {
      hide KeyOf;
      hide Xored;
      ghost var before := buffer[..];
      assert before == before[..lo] + before[lo..hi] + before[hi..];
      assert before[lo..hi] == buffer[lo..hi];
      if setup.isClient && !setup.zeroMasking {
        var mask := masker.NewMask(FourBytes(WriteUInt32BE(random)));
        Word32RoundTrip(random);
        if lo < hi {
          masker.MaskInPlace(buffer, lo, hi - lo);
        }
        ghost var body := Xored(KeyOf(random), 0, before[lo..hi]);
        assert buffer[..] == before[..lo] + body + before[hi..];
        assert buffer[lo..hi] == (before[..lo] + body + before[hi..])[lo..hi] == body;
      }
    }

    method WriteControl(opcode: bv8, payload: array<byte>, random: bv32)
      requires Valid() && payload.Length <= MAX_SAFE_INTEGER
      modifies `wire, masker, payload
      ensures Valid()
      ensures wire == old(wire) + FrameBytes(Sent(OutFrame(opcode, old(payload[..]), true), Mask(setup, random)))
    {
      hide FrameBytes;
      assert payload[0..payload.Length] == payload[..];
      WriteFrame(opcode, payload, 0, payload.Length, true, random);
    }

    method Ping(payload: array<byte>, random: bv32)
      requires Valid() && payload.Length <= MAX_SAFE_INTEGER
      modifies `wire, masker, payload
      ensures Valid()
      ensures wire == old(wire) + FrameBytes(Sent(OutFrame(PING, old(payload[..]), true), Mask(setup, random)))
    {
      WriteControl(PING, payload, random);
    }

    method Pong(payload: array<byte>, random: bv32)
      requires Valid() && payload.Length <= MAX_SAFE_INTEGER
      modifies `wire, masker, payload
      ensures Valid()
      ensures wire == old(wire) + FrameBytes(Sent(OutFrame(PONG, old(payload[..]), true), Mask(setup, random)))
    {
      WriteControl(PONG, payload, random);
    }

    /** The code and, behind it, the reason. */
    method ClosePayloadBuffer(code: nat, bytes: seq<byte>) returns (payload: array<byte>)
      ensures fresh(payload) && payload[..] == EncodeBE(code, 2) + bytes
    {
      hide EncodeBE;
      var all := EncodeBE(code, 2) + bytes;
      payload := new byte[|all|](i requires 0 <= i < |all| => all[i]);
    }

    /** `close`: a Close frame with the code and what is sent of the reason is written, or it throws and nothing is; either
        way the message mutex stays locked. */
    method Close(code: nat, reason: Option<string>, random: bv32) returns (sent: bool)
      requires Valid() && !messageLocked && code < 0x1_0000
      modifies `wire, `messageLocked, masker
      ensures Valid() && messageLocked
      ensures sent == !CloseThrows(setup, checkCloseCode, code, reason)
      ensures var text := match reason
                          case None => []
                          case Some(t) => setup.encode(if |t| <= 123 then t else t[..123]);
              && (|text| > 123 ==> !sent)
              && wire == if sent then old(wire) + FrameBytes(Sent(OutFrame(CLOSE, EncodeBE(code, 2) + text, true), Mask(setup, random)))
                         else old(wire)
    {
      hide FrameBytes;
      hide EncodeBE;
      hide Mask;
      messageLocked := true;
      if checkCloseCode {
        if !((setup.isClient && code == 1000) || (!setup.isClient && code in Decoder.VALID_SERVER_CODES) || 3000 <= code <= 4999) {
          return false;
        }
      }
      var bytes := [];
      if reason.Some? {
        var text := reason.value;
        if |text| > 123 {
          text := text[..123];
        }
        bytes := setup.encode(text);
        if 2 + |bytes| > 125 {
          return false;
        }
      }
      var payload := ClosePayloadBuffer(code, bytes);
      WriteControl(CLOSE, payload, random);
      sent := true;
    }

    /** `send`: the fragmentation loop. The bytes on the wire are those of the fragments, whole and in order, and the message
        mutex is free again. */
    method Send(text: bool, data: array<byte>, randoms: seq<bv32>)
      requires Valid() && !messageLocked && data.Length <= MAX_SAFE_INTEGER
      requires |randoms| >= |Fragments(text, data[..], setup.maxFragmentSize)|
      modifies `bufferedAmount, `messageLocked, `wire, masker, data
      ensures Valid() && !messageLocked && bufferedAmount == old(bufferedAmount)
      ensures wire == old(wire)
                      + WireBytes(Drawn(setup, Fragments(text, old(data[..]), setup.maxFragmentSize), randoms))
      ensures data[..] == BodiesOf(Drawn(setup, Fragments(text, old(data[..]), setup.maxFragmentSize), randoms))
    {
      bufferedAmount := bufferedAmount + data.Length;
      messageLocked := true;
      WriteFragments(text, data, randoms);
      messageLocked := false;
      bufferedAmount := bufferedAmount - data.Length;
    }

    method WriteFragments(text: bool, data: array<byte>, randoms: seq<bv32>)
      requires Valid() && data.Length <= MAX_SAFE_INTEGER
      requires |randoms| >= |Fragments(text, data[..], setup.maxFragmentSize)|
      modifies `wire, masker, data
      ensures Valid()
      ensures wire == old(wire)
                      + WireBytes(Drawn(setup, Fragments(text, old(data[..]), setup.maxFragmentSize), randoms))
      ensures data[..] == BodiesOf(Drawn(setup, Fragments(text, old(data[..]), setup.maxFragmentSize), randoms))
    {
      hide FrameBytes;
      hide KeyOf;
      hide Masked;
      hide WireBytes;
      hide BodiesOf;
      hide FragmentsFrom;
      ghost var start := data[..];
      ghost var all := Fragments(text, start, setup.maxFragmentSize);
      ghost var log := Drawn(setup, all, randoms);
      ghost var goal := wire + WireBytes(log);
      assert log[0..] == log && all[0..] == all && data[..0] + BodiesOf(log) == BodiesOf(log);
      if data.Length <= setup.maxFragmentSize {
        WriteNext(text, data, 0, data.Length, randoms[0], start, all, 0, log);
        NothingLeft(wire, data[..], log);
        return;
      }
      WriteNext(text, data, 0, setup.maxFragmentSize, randoms[0], start, all, 0, log);
      var offset, frames := setup.maxFragmentSize, 1;
      while offset < data.Length
        invariant Valid() && offset >= setup.maxFragmentSize && 1 <= frames <= |all|
        invariant wire + WireBytes(log[frames..]) == goal
        invariant (if offset < data.Length then data[..offset] else data[..]) + BodiesOf(log[frames..]) == BodiesOf(log)
        invariant if offset < data.Length
                  then data[offset..] == start[offset..] && frames < |all|
                       && all[frames..] == FragmentsFrom(text, start, setup.maxFragmentSize, offset)
                  else frames == |all|
        decreases data.Length - offset
      {
        var end := if offset + setup.maxFragmentSize >= data.Length then data.Length else offset + setup.maxFragmentSize;
        WriteNext(text, data, offset, end, randoms[frames], start, all, frames, log);
        offset, frames := offset + setup.maxFragmentSize, frames + 1;
      }
      NothingLeft(wire, data[..], log);
    }

    /** Writes the next of the fragments `all`; what remains to be written is the list behind it. */
    method WriteNext(text: bool, data: array<byte>, offset: nat, end: nat, random: bv32,
                     ghost start: seq<byte>, ghost all: seq<OutFrame>, ghost i: nat, ghost log: seq<Sent>)
      requires Valid() && offset <= end <= data.Length == |start| && data.Length <= MAX_SAFE_INTEGER
      requires data[offset..] == start[offset..]
      requires end == if offset + setup.maxFragmentSize >= data.Length then data.Length else offset + setup.maxFragmentSize
      requires i < |all| == |log| && all[i..] == FragmentsFrom(text, start, setup.maxFragmentSize, offset)
      requires log[i] == Sent(all[i], Mask(setup, random))
      modifies `wire, masker, data
      ensures Valid()
      ensures wire + WireBytes(log[i + 1..]) == old(wire) + WireBytes(log[i..])
      ensures data[..end] + BodiesOf(log[i + 1..]) == old(data[..offset]) + BodiesOf(log[i..])
      ensures if offset + setup.maxFragmentSize >= data.Length then i + 1 == |all|
              else i + 1 < |all| && data[end..] == start[end..]
                   && all[i + 1..] == FragmentsFrom(text, start, setup.maxFragmentSize, offset + setup.maxFragmentSize)
    {
      hide FrameBytes;
      hide WireBytes;
      hide BodiesOf;
      hide BodyBytes;
      NextFragment(text, start, setup.maxFragmentSize, offset, all, i);
      WireNext(wire, log, i);
      BodiesNext(data[..offset], log, i);
      WriteFragment(text, data, offset, end, random, start);
    }

    /** One pass of the loop; the bytes behind the fragment stay. */
    method WriteFragment(text: bool, data: array<byte>, offset: nat, end: nat, random: bv32, ghost start: seq<byte>)
      requires Valid() && offset <= end <= data.Length == |start| && data.Length <= MAX_SAFE_INTEGER
      requires data[offset..] == start[offset..]
      requires end == if offset + setup.maxFragmentSize >= data.Length then data.Length else offset + setup.maxFragmentSize
      modifies `wire, masker, data
      ensures Valid() && data[end..] == start[end..]
      ensures data[..end] == old(data[..offset])
                             + BodyBytes(Sent(FragmentAt(text, start, setup.maxFragmentSize, offset), Mask(setup, random)))
      ensures wire == old(wire) + FrameBytes(Sent(FragmentAt(text, start, setup.maxFragmentSize, offset),
                                                  Mask(setup, random)))
    {
      hide FrameBytes;
      hide BodyBytes;
      assert data[offset..end] == data[offset..][..end - offset];
      assert start[offset..end] == start[offset..][..end - offset];
      ghost var before := data[..];
      assert before[end..] == data[offset..][end - offset..] == start[offset..][end - offset..] == start[end..];
      WriteFrame(if offset > 0 then CONTINUATION else if text then TEXT else BINARY, data, offset, end,
                 offset + setup.maxFragmentSize >= data.Length, random);
      assert data[end..] == data[..][end..] && data[..end] == data[..][..end];
    }
  }

  lemma WireNext(wire: seq<byte>, log: seq<Sent>, i: nat)
    requires i < |log|
    ensures wire + WireBytes(log[i..]) == (wire + FrameBytes(log[i])) + WireBytes(log[i + 1..])
  {
    hide FrameBytes;
    assert log[i..][1..] == log[i + 1..];
  }

  lemma BodiesNext(done: seq<byte>, log: seq<Sent>, i: nat)
    requires i < |log|
    ensures done + BodiesOf(log[i..]) == (done + BodyBytes(log[i])) + BodiesOf(log[i + 1..])
  {
    hide BodyBytes;
    assert log[i..][1..] == log[i + 1..];
  }

  lemma NothingLeft(wire: seq<byte>, done: seq<byte>, log: seq<Sent>)
    ensures wire + WireBytes(log[|log|..]) == wire
    ensures done + BodiesOf(log[|log|..]) == done
  {
  }

  lemma NextFragment(text: bool, data: seq<byte>, max: nat, from: nat, all: seq<OutFrame>, i: nat)
    requires from <= |data| && max >= 1 && i < |all| && all[i..] == FragmentsFrom(text, data, max, from)
    ensures all[i] == FragmentAt(text, data, max, from)
    ensures if from + max >= |data| then i + 1 == |all|
            else i + 1 < |all| && all[i + 1..] == FragmentsFrom(text, data, max, from + max)
  {
    assert all[i] == all[i..][0];
    assert all[i + 1..] == all[i..][1..];
  }
}
