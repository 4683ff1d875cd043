/** `ProtocolReader`: the incremental reader over views of shared buffers, unmasking in place. */
module Reader {
  import opened Bytes
  import opened Masking
  import opened Frames
  import opened Decoder
  import Chunking

  /** A `Buffer` as a view of `length` bytes at `offset` of shared memory. */
  datatype Chunk = Chunk(buffer: array<byte>, offset: nat, length: nat) {
    ghost predicate Valid() {
      offset + length <= buffer.Length
    }

    function Bytes(): (s: seq<byte>)
      requires Valid()
      reads buffer
      ensures |s| == length
    {
      buffer[offset..offset + length]
    }

    function Subarray(start: nat, end: nat): (c: Chunk)
      requires Valid() && start <= end <= length
      ensures c.Valid()
    {
      Chunk(buffer, offset + start, end - start)
    }
  }

  /** No byte belongs to both views. */
  predicate Apart(a: Chunk, b: Chunk) {
    a.buffer != b.buffer || a.offset + a.length <= b.offset || b.offset + b.length <= a.offset
  }

  ghost predicate AllApart(xs: seq<Chunk>, ys: seq<Chunk>) {
    forall x, y :: x in xs && y in ys ==> Apart(x, y)
  }

  ghost predicate PairwiseApart(cs: seq<Chunk>) {
    forall i, j :: 0 <= i < j < |cs| ==> Apart(cs[i], cs[j])
  }

  ghost predicate AllValid(cs: seq<Chunk>) {
    forall c :: c in cs ==> c.Valid()
  }

  /** The bytes of a list of chunks. */
  function Contents(cs: seq<Chunk>): seq<byte>
    requires AllValid(cs)
    reads set c | c in cs :: c.buffer
  {
    if cs == [] then [] else cs[0].Bytes() + Contents(cs[1..])
  }

  lemma {:induction false} ContentsConcat(a: seq<Chunk>, b: seq<Chunk>)
    requires AllValid(a) && AllValid(b)
    ensures AllValid(a + b) && Contents(a + b) == Contents(a) + Contents(b)
    decreases |a|
  {
    if a == [] {
      assert a + b == b;
    } else {
      assert (a + b)[1..] == a[1..] + b;
      ContentsConcat(a[1..], b);
    }
  }

  ghost predicate ApartFrom(cs: seq<Chunk>, c: Chunk) {
    forall x :: x in cs ==> Apart(x, c)
  }

  /** Views none of whose bytes changed hold the same contents. */
  twostate lemma {:induction false} ContentsKept(cs: seq<Chunk>)
    requires AllValid(cs)
    requires forall c, k :: c in cs && c.offset <= k < c.offset + c.length ==> c.buffer[k] == old(c.buffer[k])
    ensures Contents(cs) == old(Contents(cs))
    decreases |cs|
  {
    if cs != [] {
      assert cs[0].Bytes() == old(cs[0].Bytes());
      ContentsKept(cs[1..]);
    }
  }

  /** Every view in `now` was in `before` or is `c`. */
  ghost predicate From(now: seq<Chunk>, before: seq<Chunk>, c: Chunk) {
    forall x :: x in now ==> x in before || x == c
  }

  /** A read queue: non-empty, disjoint chunks, the read position inside the first. */
  ghost predicate QueueFits(cs: seq<Chunk>, position: nat, repr: set<array<byte>>) {
    && AllValid(cs)
    && (forall c :: c in cs ==> c.length > 0 && c.buffer in repr)
    && PairwiseApart(cs)
    && (if cs == [] then position == 0 else position < cs[0].length)
  }

  /** Payload views held for a frame or message are apart from what is still to be unmasked. */
  ghost predicate Holds(held: seq<Chunk>, cs: seq<Chunk>, repr: set<array<byte>>) {
    && AllValid(held)
    && (forall c :: c in held ==> c.buffer in repr)
    && AllApart(held, cs)
  }

  /** The bytes of a queue that have not been read. */
  function Rest(cs: seq<Chunk>, position: nat): (s: seq<byte>)
    requires AllValid(cs) && (cs == [] ==> position == 0) && (cs != [] ==> position <= cs[0].length)
    reads set c | c in cs :: c.buffer
  {
    Contents(cs)[position..]
  }

  function Trimmed(cs: seq<Chunk>, position: nat): seq<Chunk>
    requires AllValid(cs) && cs != [] && position <= cs[0].length
  {
    [cs[0].Subarray(position, cs[0].length)] + cs[1..]
  }

  lemma TrimmedRest(cs: seq<Chunk>, position: nat)
    requires AllValid(cs) && cs != [] && position <= cs[0].length
    ensures AllValid(Trimmed(cs, position)) && Rest(Trimmed(cs, position), 0) == Rest(cs, position)
  {
    var t := Trimmed(cs, position);
    var head, later := cs[0].Bytes(), Contents(cs[1..]);
    assert t[1..] == cs[1..] && t[0].Bytes() == head[position..];
    assert (head + later)[position..] == head[position..] + later;
  }

  lemma TrimmedFits(cs: seq<Chunk>, position: nat, repr: set<array<byte>>)
    requires QueueFits(cs, position, repr) && cs != []
    ensures QueueFits(Trimmed(cs, position), 0, repr)
    ensures Rest(Trimmed(cs, position), 0) == Rest(cs, position)
  {
    TrimmedRest(cs, position);
    hide Rest;
    var t := Trimmed(cs, position);
    forall i, j | 0 <= i < j < |t|
      ensures Apart(t[i], t[j])
    {
      assert Apart(cs[i], cs[j]);
    }
  }

  lemma TrimmedHolds(held: seq<Chunk>, cs: seq<Chunk>, position: nat, repr: set<array<byte>>)
    requires AllValid(cs) && cs != [] && position <= cs[0].length && Holds(held, cs, repr)
    ensures Holds(held, Trimmed(cs, position), repr)
  {
    var t := Trimmed(cs, position);
    forall x, y | x in held && y in t
      ensures Apart(x, y)
    {
      assert Apart(x, cs[0]);
    }
  }

  /** Taking whole chunks off the front keeps a queue a queue. */
  lemma SuffixFits(cs: seq<Chunk>, k: nat, position: nat, repr: set<array<byte>>)
    requires QueueFits(cs, position, repr) && k <= |cs|
    ensures QueueFits(cs[k..], if k == 0 then position else 0, repr)
    ensures Contents(cs) == Contents(cs[..k]) + Contents(cs[k..])
  {
    assert cs[..k] + cs[k..] == cs;
    ContentsConcat(cs[..k], cs[k..]);
  }

  lemma SuffixHolds(held: seq<Chunk>, cs: seq<Chunk>, k: nat, repr: set<array<byte>>)
    requires Holds(held, cs, repr) && k <= |cs|
    ensures Holds(held, cs[k..], repr)
  {
  }

  /** The queue after `n` bytes of its first chunk have been read; a chunk read to its end is dropped. */
  function ChunksAfter(cs: seq<Chunk>, position: nat, n: nat): seq<Chunk>
    requires cs != []
  {
    if position + n == cs[0].length then cs[1..] else cs
  }

  function PositionAfter(cs: seq<Chunk>, position: nat, n: nat): nat
    requires cs != []
  {
    if position + n == cs[0].length then 0 else position + n
  }

  lemma AdvancedFits(cs: seq<Chunk>, position: nat, n: nat, repr: set<array<byte>>)
    requires QueueFits(cs, position, repr) && cs != [] && position + n <= cs[0].length
    ensures QueueFits(ChunksAfter(cs, position, n), PositionAfter(cs, position, n), repr)
    ensures n <= |Rest(cs, position)|
    ensures Rest(ChunksAfter(cs, position, n), PositionAfter(cs, position, n)) == Rest(cs, position)[n..]
    ensures cs[0].Bytes()[position..position + n] == Rest(cs, position)[..n]
  {
    assert Contents(cs) == cs[0].Bytes() + Contents(cs[1..]);
    if position + n == cs[0].length {
      SuffixFits(cs, 1, position, repr);
      assert Rest(cs, position)[n..] == Contents(cs[1..]);
    }
  }

  lemma AdvancedHolds(held: seq<Chunk>, cs: seq<Chunk>, position: nat, n: nat, repr: set<array<byte>>)
    requires Holds(held, cs, repr) && cs != []
    ensures Holds(held, ChunksAfter(cs, position, n), repr)
  {
    SuffixHolds(held, cs, 1, repr);
  }

  /** `Buffer.concat` of a list: a new buffer. */
  method ConcatBuffers(cs: seq<Chunk>, size: nat) returns (buffer: array<byte>)
    requires AllValid(cs) && size <= |Contents(cs)|
    ensures fresh(buffer) && buffer[..] == Contents(cs)[..size]
  {
    var bytes := Contents(cs);
    buffer := new byte[size](i requires 0 <= i < size => bytes[i]);
  }

  class ProtocolReader {
    const role: Role
    const utf8: seq<byte> -> bool
    var checkCloseCode: bool
    var chunks: seq<Chunk>
    var buffered: nat
    var chunkOffset: nat
    const scratch: array<byte>
    const emptyBuffer: array<byte>
    const masker: Masker
    // the current frame
    var frame: Head
    var framePayload: seq<Chunk>
    var payloadConsumed: nat
    // the current message
    var msgOpcode: Option<bv8>
    var msgFragmented: bool
    var msgPayload: seq<Chunk>
    // what to read next; `destroy` makes it Nothing and with it the size infinite
    var next: Phase
    var nextSize: nat
    var error: Option<nat>
    // the handler calls made so far
    var events: seq<Event>

    // what the views above show, as plain byte strings
    ghost var unread: seq<byte>
    ghost var control: seq<byte>
    ghost var message: seq<byte>
    // the memory of all those views
    ghost var Repr: set<array<byte>>

    function Cfg(): Config
      reads `checkCloseCode
    {
      Config(role, checkCloseCode, utf8)
    }

    /** The queue is in order and apart from the payload views; the ghost strings are what the views show. */
    ghost predicate Core()
      reads `chunks, `chunkOffset, `framePayload, `msgPayload, `unread, `control, `message, `Repr, Repr, masker
    {
      && scratch !in Repr
      && QueueFits(chunks, chunkOffset, Repr)
      && Holds(framePayload, chunks, Repr) && Holds(msgPayload, chunks, Repr)
      && unread == Rest(chunks, chunkOffset)
      && control == Contents(framePayload) && message == Contents(msgPayload)
      && scratch.Length == 8 && emptyBuffer.Length == 0 && emptyBuffer in Repr
      && masker.Valid()
    }

    lemma HeldContents()
      requires Core()
      ensures AllValid(framePayload) && control == Contents(framePayload)
      ensures AllValid(msgPayload) && message == Contents(msgPayload)
    {
    }

    /** The masker stands at the payload byte to be read next. */
    ghost predicate MaskerReady()
      reads `frame, `payloadConsumed, masker
    {
      masker.maskByte == KeyOf(frame.mask) && masker.offset == payloadConsumed % 4
    }

    /** What to read next fits the frame: sizes announced, masker in place. */
    ghost predicate PhaseOk()
      reads `next, `nextSize, `frame, `framePayload, `payloadConsumed, `error, masker
    {
      match next
      case Nothing => error.Some?
      case Header1 => error.None? && nextSize == 2
      case Header2 => error.None? && nextSize == RestSize(frame) > 0 && framePayload == [] && payloadConsumed == 0
      case Payload => error.None? && nextSize == 1 && payloadConsumed < frame.size && (role == Server ==> MaskerReady())
    }

    ghost predicate Valid()
      reads this, Repr, masker
    {
      Core() && buffered == |unread| && PhaseOk()
    }

    /** The machine state this object stands for. */
    ghost function Abs(): Machine
      reads this
    {
      Machine(next, frame, payloadConsumed, control, Assembly(msgOpcode, msgFragmented, message), unread, events, error)
    }

    constructor (isClient: bool, utf8: seq<byte> -> bool)
      ensures Valid() && fresh(masker) && fresh(scratch)
      ensures Abs() == START && Cfg() == Config(if isClient then Client else Server, true, utf8)
    {
      role := if isClient then Client else Server;
      this.utf8 := utf8;
      checkCloseCode := true;
      chunks, buffered, chunkOffset := [], 0, 0;
      scratch := new byte[8](_ => 0);
      emptyBuffer := new byte[0](_ => 0);
      masker := new Masker();
      frame, framePayload, payloadConsumed := NO_HEAD, [], 0;
      msgOpcode, msgFragmented, msgPayload := None, false, [];
      next, nextSize, error := Header1, 2, None;
      events := [];
      unread, control, message, Repr := [], [], [], {emptyBuffer};
    }

    // ---- the chunk queue

    /** Puts a new queue in place. */
    method SetQueue(cs: seq<Chunk>, position: nat)
      requires Core() && QueueFits(cs, position, Repr)
      requires Holds(framePayload, cs, Repr) && Holds(msgPayload, cs, Repr)
      modifies `chunks, `chunkOffset, `unread
      ensures Core() && chunks == cs && chunkOffset == position && unread == old(Rest(cs, position))
    {
      unread := Rest(cs, position);
      chunks, chunkOffset := cs, position;
    }

    method SetMsgPayload(cs: seq<Chunk>)
      requires Core() && Holds(cs, chunks, Repr)
      modifies `msgPayload, `message
      ensures Core() && message == old(Contents(cs)) && msgPayload == cs
    {
      message := Contents(cs);
      msgPayload := cs;
    }

    method SetFramePayload(cs: seq<Chunk>)
      requires Core() && Holds(cs, chunks, Repr)
      modifies `framePayload, `control
      ensures Core() && control == old(Contents(cs)) && framePayload == cs
    {
      control := Contents(cs);
      framePayload := cs;
    }

    lemma QueueInOrder()
      requires Core()
      ensures QueueFits(chunks, chunkOffset, Repr) && unread == Rest(chunks, chunkOffset)
      ensures Holds(framePayload, chunks, Repr) && Holds(msgPayload, chunks, Repr)
      ensures unread != [] ==> chunks != []
      ensures chunks != [] ==> chunks[0].Valid() && chunkOffset < chunks[0].length
    {
    }

    /** Creates a reduced view of the first chunk from the read position on. */
    method TrimCurrentChunk()
      requires Core() && chunks != []
      modifies `chunks, `chunkOffset, `unread
      ensures Core() && chunks != [] && chunkOffset == 0 && unread == old(unread)
    {
      QueueInOrder();
      hide *;
      TrimmedFits(chunks, chunkOffset, Repr);
      TrimmedHolds(framePayload, chunks, chunkOffset, Repr);
      TrimmedHolds(msgPayload, chunks, chunkOffset, Repr);
      SetQueue([chunks[0].Subarray(chunkOffset, chunks[0].length)] + chunks[1..], 0);
    }

    /** Moves the read position on inside the first chunk; a chunk read to its end is dropped. */
    method Advance(n: nat)
      requires Core() && chunks != [] && n <= chunks[0].length - chunkOffset
      modifies `chunks, `chunkOffset, `unread
      ensures n <= |old(unread)| && Core() && unread == old(unread)[n..]
    {
      QueueInOrder();
      hide Core;
      hide QueueFits;
      hide Holds;
      hide Rest;
      AdvancedFits(chunks, chunkOffset, n, Repr);
      AdvancedHolds(framePayload, chunks, chunkOffset, n, Repr);
      AdvancedHolds(msgPayload, chunks, chunkOffset, n, Repr);
      if chunkOffset + n == chunks[0].length {
        SetQueue(chunks[1..], 0);
      } else {
        SetQueue(chunks, chunkOffset + n);
      }
    }

    /** Up to 8 bytes, one at a time, across chunk borders. */
    method FillSmall(bytesWanted: nat)
      requires Core() && bytesWanted <= 8 && bytesWanted <= |unread| == buffered
      modifies `chunks, `chunkOffset, `buffered, `unread, scratch
      ensures Core() && buffered == |unread| && unread == old(unread)[bytesWanted..]
      ensures scratch[..bytesWanted] == old(unread)[..bytesWanted]
    {
      buffered := buffered - bytesWanted;
      CopyToScratch(bytesWanted);
    }

    method CopyToScratch(bytesWanted: nat)
      requires Core() && bytesWanted <= 8 && bytesWanted <= |unread|
      modifies `chunks, `chunkOffset, `unread, scratch
      ensures Core() && unread == old(unread)[bytesWanted..]
      ensures scratch[..bytesWanted] == old(unread)[..bytesWanted]
    {
      hide QueueFits;
      hide Holds;
      hide Rest;
      ghost var start := unread;
      for offset := 0 to bytesWanted
        invariant Core() && unread == start[offset..]
        invariant scratch[..offset] == start[..offset]
      {
        var b := NextByte();
        SetScratch(offset, b);
        assert scratch[..offset + 1] == scratch[..offset] + [b];
        assert start[..offset + 1] == start[..offset] + [b];
      }
    }

    /** No view the reader holds shows the scratch buffer, so writing it changes none of them. */
    method SetScratch(offset: nat, b: byte)
      requires Core() && offset < 8
      modifies scratch
      ensures Core() && scratch[..] == old(scratch[..])[offset := b]
    {
      hide Rest;
      scratch[offset] := b;
    }

    method NextByte() returns (b: byte)
      requires Core() && unread != []
      modifies `chunks, `chunkOffset, `unread
      ensures Core() && b == old(unread)[0] && unread == old(unread)[1..]
    {
      QueueInOrder();
      hide Core;
      hide QueueFits;
      hide Holds;
      hide Rest;
      FirstByte(chunks, chunkOffset);
      b := chunks[0].buffer[chunks[0].offset + chunkOffset];
      Advance(1);
    }

    /** More than 8 bytes: whole chunks concatenated into a new buffer, the queue cut behind the last byte used. */
    method FillLarge(bytesWanted: nat) returns (buffer: array<byte>)
      requires Core() && 0 < bytesWanted <= |unread| == buffered
      modifies `chunks, `chunkOffset, `buffered, `unread
      ensures Core() && buffered == |unread| && unread == old(unread)[bytesWanted..]
      ensures fresh(buffer) && buffer[..] == old(unread)[..bytesWanted]
    {
      QueueInOrder();
      hide Core;
      hide QueueFits;
      hide Holds;
      hide Rest;
      buffered := buffered - bytesWanted;
      if chunkOffset != 0 {
        TrimCurrentChunk();
      }
      WholeQueue();
      buffer := ConcatBuffers(chunks, bytesWanted);
      RemoveChunks(bytesWanted);
    }

    lemma WholeQueue()
      requires Core() && chunkOffset == 0
      ensures AllValid(chunks) && unread == Contents(chunks)
    {
    }

    /** Removes the concatenated chunks and corrects the position in the one used in part. */
    method RemoveChunks(bytesWanted: nat)
      requires Core() && chunkOffset == 0 && 0 < bytesWanted <= |unread|
      modifies `chunks, `chunkOffset, `unread
      ensures Core() && unread == old(unread)[bytesWanted..]
    {
      QueueInOrder();
      WholeQueue();
      hide Core;
      hide QueueFits;
      hide Holds;
      hide Rest;
      hide Contents;
      var chunksToRemove, bytesFound := CountChunks(bytesWanted);
      CutFits(chunks, chunksToRemove, bytesFound, bytesWanted, Repr);
      var position := 0;
      if bytesFound != bytesWanted {
        chunksToRemove := chunksToRemove - 1;
        position := chunks[chunksToRemove].length - (bytesFound - bytesWanted);
      }
      SuffixHolds(framePayload, chunks, chunksToRemove, Repr);
      SuffixHolds(msgPayload, chunks, chunksToRemove, Repr);
      SetQueue(chunks[chunksToRemove..], position);
    }

    /** How many chunks hold the first `bytesWanted` bytes, and how many bytes those chunks hold. */
    method CountChunks(bytesWanted: nat) returns (chunksToRemove: nat, bytesFound: nat)
      requires AllValid(chunks) && 0 < bytesWanted <= |Contents(chunks)|
      ensures 0 < chunksToRemove <= |chunks| && bytesFound == |Contents(chunks[..chunksToRemove])|
      ensures bytesFound - chunks[chunksToRemove - 1].length < bytesWanted <= bytesFound
    {
      chunksToRemove, bytesFound := 0, 0;
      assert chunks[..|chunks|] == chunks;
      while bytesFound < bytesWanted
        invariant chunksToRemove <= |chunks| && bytesFound == |Contents(chunks[..chunksToRemove])|
        invariant chunksToRemove > 0 ==> bytesFound - chunks[chunksToRemove - 1].length < bytesWanted
        decreases |chunks| - chunksToRemove
      {
        ContentsSnoc(chunks, chunksToRemove);
        bytesFound := bytesFound + chunks[chunksToRemove].length;
        chunksToRemove := chunksToRemove + 1;
      }
    }

    /** `#read`: the next bytes, in place where the first chunk has them all. */
    method Read(bytesWanted: nat) returns (buffer: array<byte>, offset: nat)
      requires Core() && 0 < bytesWanted <= |unread| == buffered
      modifies `chunks, `chunkOffset, `buffered, `unread, scratch
      ensures Core() && buffered == |unread| && unread == old(unread)[bytesWanted..]
      ensures offset + bytesWanted <= buffer.Length
      ensures buffer[offset..offset + bytesWanted] == old(unread)[..bytesWanted]
    {
      QueueInOrder();
      assert scratch.Length == 8;
      hide Core;
      hide QueueFits;
      hide Holds;
      hide Rest;
      if bytesWanted > chunks[0].length - chunkOffset {
        if bytesWanted <= 8 {
          FillSmall(bytesWanted);
          buffer, offset := scratch, 0;
        } else {
          buffer := FillLarge(bytesWanted);
          offset := 0;
        }
      } else {
        FirstBytes(chunks, chunkOffset, bytesWanted);
        buffer, offset := chunks[0].buffer, chunks[0].offset + chunkOffset;
        buffered := buffered - bytesWanted;
        Advance(bytesWanted);
      }
    }

    // ---- errors and handlers

    /** `#error`: destroys the reader; nothing is read any more. */
    method Fail(code: nat)
      modifies `next, `error
      ensures next == Nothing && error == Some(code)
    {
      next := Nothing;
      error := Some(code);
    }

    /** `#emitMessage` */
    method EmitMessage()
      requires Core()
      modifies `next, `error, `events, `msgOpcode, `msgFragmented, `msgPayload, `message
      ensures Core() && Abs() == Decoder.EmitMessage(Cfg(), old(Abs()))
      ensures msgPayload == old(msgPayload) || msgPayload == []
    {
      hide Core;
      HeldContents();
      var data := Contents(msgPayload);
      var text := msgOpcode != Some(BINARY);
      if text && !utf8(data) {
        Fail(1007);
        return;
      }
      events := events + [Message(text, data)];
      if frame.fin {
        SetMessage(None, false);
      }
    }

    /** Begins a message, or clears it. */
    method SetMessage(opcode: Option<bv8>, fragmented: bool)
      requires Core()
      modifies `msgOpcode, `msgFragmented, `msgPayload, `message
      ensures Core() && Abs() == old(Abs()).(message := Assembly(opcode, fragmented, [])) && msgPayload == []
    {
      hide Core;
      msgOpcode, msgFragmented := opcode, fragmented;
      SetMsgPayload([]);
    }

    /** `#handleCloseFrame` up to the call of the handler: the close to report, or the error. */
    method ReadClose(payload: seq<byte>) returns (verdict: CloseVerdict)
      ensures verdict == JudgeClose(Cfg(), payload)
    {
      var code, reason := 1005, None;
      if |payload| >= 2 {
        code := DecodeBE(payload[..2]);
        if |payload| > 2 && |payload| <= 125 {
          if !utf8(payload[2..]) {
            return Reject(1007);
          }
          reason := Some(payload[2..]);
        }
        if checkCloseCode {
          if role == Server {
            if !(code in VALID_CLIENT_CODES || 3000 <= code <= 4999) {
              return Reject(1002);
            }
          } else {
            if !(code in VALID_SERVER_CODES || 3000 <= code <= 4999) {
              return Reject(1002);
            }
          }
        }
      } else if |payload| == 1 {
        return Reject(1002);
      }
      verdict := Accept(Close(code, reason));
    }

    method HandleCloseFrame()
      requires Core() && frame.opcode == CLOSE
      modifies `next, `error, `events
      ensures Core() && Abs() == HandleControl(Cfg(), old(Abs()))
    {
      hide Core;
      hide JudgeClose;
      HeldContents();
      var payload := Contents(framePayload);
      var verdict := ReadClose(payload);
      match verdict
      case Reject(code) => Fail(code);
      case Accept(close) => events := events + [close];
    }

    method HandleControlFrame()
      requires Core()
      modifies `next, `error, `events
      ensures Core() && Abs() == HandleControl(Cfg(), old(Abs()))
    {
      hide Core;
      HeldContents();
      var payload := Contents(framePayload);
      if frame.opcode == PING {
        events := events + [Ping(payload)];
      } else if frame.opcode == PONG {
        events := events + [Pong(payload)];
      } else if frame.opcode == CLOSE {
        HandleCloseFrame();
      }
    }

    // ---- payload

    method MaskView(chunk: Chunk)
      requires masker.Valid() && chunk.Valid()
      requires chunk.length > 0 ==> MaskerReady()
      modifies masker`offset, chunk.buffer
      ensures masker.Valid()
      ensures chunk.Bytes() == Xored(KeyOf(frame.mask), payloadConsumed, old(chunk.Bytes()))
      ensures masker.offset == (old(masker.offset) + chunk.length) % 4
      ensures forall j :: 0 <= j < chunk.buffer.Length && !(chunk.offset <= j < chunk.offset + chunk.length) ==>
                chunk.buffer[j] == old(chunk.buffer[j])
    {
      hide LEBytes;
      hide Rotated;
      hide Masked;
      hide Xored;
      hide KeyOf;
      ghost var before := chunk.buffer[..];
      ghost var end := chunk.offset + chunk.length;
      MaskEffect(masker.maskByte, masker.offset, payloadConsumed, before, chunk.offset, end);
      masker.MaskInPlace(chunk.buffer, chunk.offset, chunk.length);
      assert chunk.buffer[chunk.offset..end] == chunk.buffer[..][chunk.offset..end];
      assert old(chunk.Bytes()) == before[chunk.offset..end];
      forall j | 0 <= j < chunk.buffer.Length && !(chunk.offset <= j < end)
        ensures chunk.buffer[j] == old(chunk.buffer[j])
      {
        assert chunk.buffer[j] == chunk.buffer[..][j];
      }
    }

    /** A view that can be changed without changing what the reader holds. */
    ghost predicate Free(chunk: Chunk)
      reads `chunks, `framePayload, `msgPayload, `Repr
    {
      && chunk.Valid() && chunk.buffer in Repr
      && ApartFrom(chunks, chunk) && ApartFrom(framePayload, chunk) && ApartFrom(msgPayload, chunk)
    }

    /** `maskInPlace` on a server, nothing on a client. */
    method Unmask(chunk: Chunk)
      requires Core() && Free(chunk)
      requires role == Server && chunk.length > 0 ==> MaskerReady()
      modifies masker`offset, chunk.buffer
      ensures Core()
      ensures chunk.Bytes() == Plain(role, frame, payloadConsumed, old(chunk.Bytes()))
      ensures role == Server ==> masker.offset == (old(masker.offset) + chunk.length) % 4
      ensures forall j :: 0 <= j < chunk.buffer.Length && !(chunk.offset <= j < chunk.offset + chunk.length) ==>
                chunk.buffer[j] == old(chunk.buffer[j])
    {
      if role == Server {
        MaskView(chunk);
        ghost var all := chunks + framePayload + msgPayload;
        forall c, k | c in all && c.offset <= k < c.offset + c.length
          ensures c.buffer[k] == old(c.buffer[k])
        {
          assert Apart(c, chunk);
        }
        ContentsKept(chunks);
        ContentsKept(framePayload);
        ContentsKept(msgPayload);
      }
    }

    /** `#consumePayloadChunk`: unmasks the chunk and adds it to the message or to the control payload. */
    method ConsumePayloadChunk(chunk: Chunk)
      requires Core() && error.None? && Free(chunk) && chunk.Valid()
      requires payloadConsumed + chunk.length <= frame.size
      requires role == Server && chunk.length > 0 ==> MaskerReady()
      requires if frame.size > 0 then next == Payload && nextSize == 1 && chunk.length > 0 else next == Header1 && nextSize == 2
      modifies `payloadConsumed, `next, `nextSize, `error, `events
      modifies `framePayload, `msgOpcode, `msgFragmented, `msgPayload, `control, `message
      modifies masker`offset, chunk.buffer
      ensures Core() && PhaseOk()
      ensures Abs() == Consume(Cfg(), old(Abs()), old(chunk.Bytes()))
      ensures From(framePayload, old(framePayload), chunk) && From(msgPayload, old(msgPayload), chunk)
      ensures forall j :: 0 <= j < chunk.buffer.Length && !(chunk.offset <= j < chunk.offset + chunk.length) ==>
                chunk.buffer[j] == old(chunk.buffer[j])
    {
      hide Core;
      hide Free;
      hide Plain;
      hide Store;
      hide Consume;
      ghost var m, raw := Abs(), chunk.Bytes();
      ConsumeIsStore(Cfg(), m, raw);
      var final := UnmaskAndCount(chunk);
      StoreChunk(chunk, final);
    }

    /** Unmasks the chunk and counts its bytes; the masker stands at the byte behind it. */
    method UnmaskAndCount(chunk: Chunk) returns (final: bool)
      requires Core() && Free(chunk) && chunk.Valid()
      requires payloadConsumed + chunk.length <= frame.size
      requires role == Server && chunk.length > 0 ==> MaskerReady()
      modifies `payloadConsumed, `next, `nextSize, masker`offset, chunk.buffer
      ensures Core() && chunk.Bytes() == Plain(role, frame, old(payloadConsumed), old(chunk.Bytes()))
      ensures final == (payloadConsumed == frame.size) && payloadConsumed == old(payloadConsumed) + chunk.length
      ensures if final then next == Header1 && nextSize == 2 else next == old(next) && nextSize == old(nextSize)
      ensures role == Server && chunk.length > 0 ==> MaskerReady()
      ensures forall j :: 0 <= j < chunk.buffer.Length && !(chunk.offset <= j < chunk.offset + chunk.length) ==>
                chunk.buffer[j] == old(chunk.buffer[j])
    {
      hide Core;
      hide Free;
      hide Plain;
      Unmask(chunk);
      final := CountPayload(chunk.length);
    }

    /** Counts consumed bytes; after the last of a frame a header follows. */
    method CountPayload(n: nat) returns (final: bool)
      requires payloadConsumed + n <= frame.size
      modifies `payloadConsumed, `next, `nextSize
      ensures final == (payloadConsumed == frame.size) && payloadConsumed == old(payloadConsumed) + n
      ensures if final then next == Header1 && nextSize == 2 else next == old(next) && nextSize == old(nextSize)
      ensures (old(payloadConsumed) % 4 + n) % 4 == payloadConsumed % 4
    {
      PositionStep(payloadConsumed, n);
      payloadConsumed := payloadConsumed + n;
      final := payloadConsumed == frame.size;
      if final {
        next, nextSize := Header1, 2;
      }
    }

    /** Adds an unmasked chunk to the message or to the control payload and acts on a completed one. */
    method StoreChunk(chunk: Chunk, final: bool)
      requires Core() && Free(chunk)
      modifies `next, `error, `events
      modifies `framePayload, `msgOpcode, `msgFragmented, `msgPayload, `control, `message
      ensures Core() && Abs() == Store(Cfg(), old(Abs()), old(chunk.Bytes()), final)
      ensures From(framePayload, old(framePayload), chunk) && From(msgPayload, old(msgPayload), chunk)
    {
      hide Core;
      hide Free;
      hide Decoder.EmitMessage;
      hide HandleControl;
      if IsData(frame.opcode) {
        PushMessage(chunk);
        if final && frame.fin {
          EmitMessage();
        }
      } else {
        PushControl(chunk);
        if final && IsControl(frame.opcode) {
          HandleControlFrame();
        }
      }
    }

    method PushMessage(chunk: Chunk)
      requires Core() && Free(chunk)
      modifies `msgPayload, `message
      ensures Core() && message == old(message) + chunk.Bytes() && From(msgPayload, old(msgPayload), chunk)
    {
      QueueInOrder();
      HeldContents();
      hide Core;
      ContentsConcat(msgPayload, [chunk]);
      SetMsgPayload(msgPayload + [chunk]);
    }

    method PushControl(chunk: Chunk)
      requires Core() && Free(chunk)
      modifies `framePayload, `control
      ensures Core() && control == old(control) + chunk.Bytes() && From(framePayload, old(framePayload), chunk)
    {
      QueueInOrder();
      HeldContents();
      hide Core;
      ContentsConcat(framePayload, [chunk]);
      SetFramePayload(framePayload + [chunk]);
    }

    // ---- headers

    /** `#handleHeader`, the next phase having been chosen. */
    method HandleHeader()
      requires Core() && error.None? && framePayload == [] && payloadConsumed == 0
      requires if frame.size > 0 then next == Payload && nextSize == 1 else next == Header1 && nextSize == 2
      modifies `payloadConsumed, `next, `nextSize, `error, `events
      modifies `framePayload, `msgOpcode, `msgFragmented, `msgPayload, `control, `message, masker, emptyBuffer
      ensures Core() && PhaseOk()
      ensures Abs() == Decoder.HandleHeader(Cfg(), old(Abs()))
    {
      hide Core;
      hide Consume;
      hide HandleControl;
      hide Decoder.EmitMessage;
      hide HeaderFault;
      var fault := CheckHeader();
      if fault.Some? {
        Fail(fault.value);
      } else {
        ApplyHeader();
      }
    }

    /** A header without fault: the masker takes its key and an empty frame is acted on at once. */
    method ApplyHeader()
      requires Core() && error.None? && framePayload == [] && payloadConsumed == 0
      requires if frame.size > 0 then next == Payload && nextSize == 1 else next == Header1 && nextSize == 2
      requires HeaderFault(role, msgFragmented, frame).None?
      modifies `payloadConsumed, `next, `nextSize, `error, `events
      modifies `framePayload, `msgOpcode, `msgFragmented, `msgPayload, `control, `message, masker, emptyBuffer
      ensures Core() && PhaseOk()
      ensures Abs() == Decoder.HandleHeader(Cfg(), old(Abs()))
    {
      hide Core;
      hide Consume;
      hide HandleControl;
      hide Decoder.EmitMessage;
      hide HeaderFault;
      hide DataHeader;
      HeaderActs(Cfg(), Abs());
      hide Decoder.HandleHeader;
      if frame.size > 0 {
        PayloadIsMasked(role, msgFragmented, frame);
      }
      if frame.hasMask {
        TakeMask();
      }
      if IsData(frame.opcode) {
        HandleDataHeader();
      } else if frame.size == 0 {
        HandleControlFrame();
      }
    }

    method TakeMask()
      requires Core()
      modifies masker
      ensures Core() && masker.maskByte == KeyOf(frame.mask) && masker.offset == 0
    {
      hide KeyOf;
      var _ := masker.NewMask(Number(frame.mask));
    }

    lemma EmptyIsFree()
      requires Core()
      ensures Free(Chunk(emptyBuffer, 0, 0)) && Chunk(emptyBuffer, 0, 0).Bytes() == []
    {
    }

    /** The data cases of the opcode switch. */
    method HandleDataHeader()
      requires Core() && error.None? && IsData(frame.opcode) && framePayload == [] && payloadConsumed == 0
      requires if frame.size > 0 then next == Payload && nextSize == 1 else next == Header1 && nextSize == 2
      modifies `payloadConsumed, `next, `nextSize, `error, `events
      modifies `framePayload, `msgOpcode, `msgFragmented, `msgPayload, `control, `message, masker`offset, emptyBuffer
      ensures Core() && payloadConsumed == 0
      ensures frame.size > 0 ==> nextSize == old(nextSize) && masker.offset == old(masker.offset)
      ensures next == Header1 ==> nextSize == 2
      ensures Abs() == DataHeader(Cfg(), old(Abs()))
    {
      EmptyIsFree();
      hide Core;
      hide Free;
      hide Consume;
      hide Decoder.EmitMessage;
      if frame.opcode == CONTINUATION {
        if frame.size == 0 && frame.fin {
          ConsumePayloadChunk(Chunk(emptyBuffer, 0, 0));
        }
      } else {
        BeginMessage();
      }
    }

    method BeginMessage()
      requires Core()
      modifies `next, `error, `events, `msgOpcode, `msgFragmented, `msgPayload, `message
      ensures Core() && (frame.size > 0 ==> next == old(next) && error == old(error))
      ensures Abs() == var m := old(Abs()).(message := Assembly(Some(frame.opcode), !frame.fin, []));
                       if frame.size == 0 && frame.fin then Decoder.EmitMessage(Cfg(), m) else m
    {
      hide Core;
      hide Decoder.EmitMessage;
      SetMessage(Some(frame.opcode), !frame.fin);
      if frame.size == 0 && frame.fin {
        EmitMessage();
      }
    }

    /** The checks of `#handleHeader`, in order; those of the opcode switch have no effect before they fail. */
    method CheckHeader() returns (fault: Option<nat>)
      ensures fault == HeaderFault(role, msgFragmented, frame)
    {
      hide IsControl;
      var h := frame;
      if h.rsv1 || h.rsv2 || h.rsv3 {
        return Some(1002);
      }
      if IsControl(h.opcode) {
        if h.size7 > 125 || !h.fin {
          return Some(1002);
        }
      }
      if role == Client {
        if h.hasMask {
          return Some(1002);
        }
      } else if h.size > 0 && !h.hasMask {
        return Some(1002);
      }
      if h.opcode == PING || h.opcode == PONG || h.opcode == CLOSE {
        return None;
      } else if h.opcode == CONTINUATION {
        return if msgFragmented then None else Some(1002);
      } else if h.opcode == BINARY || h.opcode == TEXT {
        return if msgFragmented then Some(1002) else None;
      }
      fault := Some(1002);
    }

    /** `#read16bitHeader` */
    method Read16BitHeader()
      requires Valid() && next == Header1 && buffered >= 2
      modifies this, masker, scratch, emptyBuffer
      ensures Valid() && Cfg() == old(Cfg()) && Repr == old(Repr)
      ensures Abs() == ReadHeader1(Cfg(), old(Abs()))
    {
      hide Core;
      hide FirstHead;
      hide ReadUInt16BE;
      hide Decoder.HandleHeader;
      var head := TakeFirst();
      HandleFirst(head);
    }

    /** Reads and decodes the first two bytes of a header. */
    method TakeFirst() returns (head: Head)
      requires Core() && 2 <= buffered == |unread|
      modifies `chunks, `chunkOffset, `buffered, `unread, scratch
      ensures Core() && buffered == |unread| && unread == old(unread)[2..]
      ensures head == FirstHead(ReadUInt16BE(old(unread)[..2]))
    {
      hide Core;
      hide FirstHead;
      hide ReadUInt16BE;
      var buffer, offset := Read(2);
      head := FirstHead(ReadUInt16BE(buffer[offset..offset + 2]));
    }

    /** Starts the frame, whose header is complete unless a second part follows. */
    method HandleFirst(head: Head)
      requires Core() && error.None?
      modifies `frame, `payloadConsumed, `next, `nextSize, `error, `events
      modifies `framePayload, `msgOpcode, `msgFragmented, `msgPayload, `control, `message, masker, emptyBuffer
      ensures Core() && PhaseOk()
      ensures Abs() == var m := old(Abs()).(head := head, consumed := 0, control := []);
                       if RestSize(head) > 0 then m.(next := Header2) else Decoder.HandleHeader(Cfg(), m)
    {
      hide Core;
      hide Decoder.HandleHeader;
      NewFrame(head);
      ChooseNext(head);
      if next != Header2 {
        PhaseIsChosen(Cfg(), Abs(), old(next));
        HandleHeader();
      }
    }

    method Header2Size(head: Head) returns (header2Size: nat)
      ensures header2Size == RestSize(head)
    {
      header2Size := 0;
      if head.size7 == 127 {
        header2Size := header2Size + 8;
      } else if head.size7 == 126 {
        header2Size := header2Size + 2;
      }
      if head.hasMask {
        header2Size := header2Size + 4;
      }
    }

    /** A fresh frame object. */
    method NewFrame(head: Head)
      requires Core()
      modifies `frame, `framePayload, `payloadConsumed, `control
      ensures Core() && framePayload == [] && frame == head && payloadConsumed == 0 && control == []
    {
      hide Core;
      frame, payloadConsumed := head, 0;
      SetFramePayload([]);
    }

    /** What to read after the first two bytes of a header. */
    method ChooseNext(head: Head)
      modifies `next, `nextSize
      ensures next == if RestSize(head) > 0 then Header2 else if head.size > 0 then Payload else Header1
      ensures nextSize == if RestSize(head) > 0 then RestSize(head) else if head.size > 0 then 1 else 2
    {
      hide RestSize;
      var header2Size := Header2Size(head);
      if header2Size > 0 {
        next, nextSize := Header2, header2Size;
      } else if head.size > 0 {
        next, nextSize := Payload, 1;
      } else {
        next, nextSize := Header1, 2;
      }
    }

    /** `#readRestOfHeader` */
    method ReadRestOfHeader()
      requires Valid() && next == Header2 && buffered >= nextSize
      modifies this, masker, scratch, emptyBuffer
      ensures Valid() && Cfg() == old(Cfg()) && Repr == old(Repr)
      ensures Abs() == ReadHeader2(Cfg(), old(Abs()))
    {
      hide Core;
      hide RestHead;
      hide Decoder.HandleHeader;
      var read := TakeRest();
      FinishHeader(read);
    }

    /** The header is complete, or refused. */
    method FinishHeader(read: RestResult)
      requires Core() && next == Header2 && error.None? && framePayload == [] && payloadConsumed == 0
      modifies `frame, `payloadConsumed, `next, `nextSize, `error, `events
      modifies `framePayload, `msgOpcode, `msgFragmented, `msgPayload, `control, `message, masker, emptyBuffer
      ensures Core() && PhaseOk()
      ensures read.Refused? ==> Abs() == Decoder.Fail(old(Abs()), read.code)
      ensures read.Complete? ==> Abs() == Decoder.HandleHeader(Cfg(), old(Abs()).(head := read.head))
    {
      hide Core;
      hide Decoder.HandleHeader;
      match read
      case Refused(code) => Fail(code);
      case Complete(head) => CompleteHeader(head);
    }

    /** Reads and decodes the bytes of the second header part. */
    method TakeRest() returns (r: RestResult)
      requires Core() && buffered == |unread| && RestSize(frame) == nextSize && 0 < nextSize <= buffered
      modifies `chunks, `chunkOffset, `buffered, `unread, scratch
      ensures Core() && buffered == |unread| && unread == old(unread)[nextSize..]
      ensures r == RestHead(frame, old(unread)[..nextSize])
    {
      hide Core;
      hide RestHead;
      var buffer, offset := Read(nextSize);
      r := ParseRest(buffer[offset..offset + nextSize]);
    }

    method CompleteHeader(head: Head)
      requires Core() && next == Header2 && error.None? && framePayload == [] && payloadConsumed == 0
      modifies `frame, `payloadConsumed, `next, `nextSize, `error, `events
      modifies `framePayload, `msgOpcode, `msgFragmented, `msgPayload, `control, `message, masker, emptyBuffer
      ensures Core() && PhaseOk()
      ensures Abs() == Decoder.HandleHeader(Cfg(), old(Abs()).(head := head))
    {
      hide Core;
      hide Decoder.HandleHeader;
      frame := head;
      if head.size > 0 {
        next, nextSize := Payload, 1;
      } else {
        next, nextSize := Header1, 2;
      }
      PhaseIsChosen(Cfg(), Abs(), Header2);
      HandleHeader();
    }

    method ParseRest(rest: seq<byte>) returns (r: RestResult)
      requires |rest| == RestSize(frame)
      ensures r == RestHead(frame, rest)
    {
      var offset, size, mask := 0, frame.size, frame.mask;
      if frame.size7 == 127 {
        size := DecodeBE(rest[offset..offset + 8]);
        offset := offset + 8;
        if (size / Pow256(8)) % 2 == 1 {
          return Refused(1002);
        }
        if size > MAX_SAFE_INTEGER {
          return Refused(1009);
        }
      } else if frame.size7 == 126 {
        size := DecodeBE(rest[offset..offset + 2]);
        offset := offset + 2;
      }
      if frame.hasMask {
        mask := ReadUInt32BE(rest[offset..]);
      }
      r := Complete(frame.(size := size, mask := mask));
    }

    // ---- the payload loop

    /** Takes the first chunk, or as much of it as belongs to the frame, and consumes it. */
    method ConsumeFirst()
      requires Valid() && next == Payload && chunkOffset == 0 && chunks != []
      modifies this, masker, Repr
      ensures Valid() && Cfg() == old(Cfg()) && Repr == old(Repr)
      ensures var k := if old(chunks[0].length) <= old(frame.size - payloadConsumed)
                       then old(chunks[0].length) else old(frame.size - payloadConsumed);
              0 < k <= old(|unread|) && Abs() == TakePayload(Cfg(), old(Abs()), k)
      ensures chunkOffset == 0 && frame == old(frame)
      ensures payloadConsumed < frame.size ==> next == Payload && chunks == old(chunks)[1..]
    {
      var c := chunks[0];
      if payloadConsumed + c.length <= frame.size {
        ConsumeWhole();
      } else {
        ConsumePart();
      }
    }

    /** `shift`: the first chunk off the queue. */
    method ShiftChunk() returns (c: Chunk)
      requires Core() && chunkOffset == 0 && chunks != []
      modifies `chunks, `chunkOffset, `unread
      ensures Core() && c == old(chunks)[0] && chunks == old(chunks)[1..] && chunkOffset == 0
      ensures Free(c) && c.Valid() && c.buffer in Repr && 0 < c.length <= |old(unread)|
      ensures c.Bytes() == old(unread)[..c.length] && unread == old(unread)[c.length..]
    {
      c := chunks[0];
      FirstIsFree();
      hide Core;
      hide QueueFits;
      hide Holds;
      hide Rest;
      hide ApartFrom;
      SetQueue(chunks[1..], 0);
    }

    lemma FirstIsFree()
      requires Core() && chunkOffset == 0 && chunks != []
      ensures var c := chunks[0];
              && c.Valid() && c.length > 0 && c.length <= |unread|
              && c.Bytes() == unread[..c.length]
              && AllValid(chunks[1..]) && Rest(chunks[1..], 0) == unread[c.length..]
              && QueueFits(chunks[1..], 0, Repr)
              && Holds(framePayload, chunks[1..], Repr) && Holds(msgPayload, chunks[1..], Repr)
              && ApartFrom(chunks[1..], c) && ApartFrom(framePayload, c) && ApartFrom(msgPayload, c) && c.buffer in Repr
    {
    }

    method ConsumeWhole()
      requires Valid() && next == Payload && chunkOffset == 0 && chunks != []
      requires payloadConsumed + chunks[0].length <= frame.size
      modifies this, masker, Repr
      ensures Valid() && Cfg() == old(Cfg()) && Repr == old(Repr)
      ensures 0 < old(chunks[0].length) <= old(|unread|)
      ensures Abs() == TakePayload(Cfg(), old(Abs()), old(chunks[0].length))
      ensures chunkOffset == 0 && frame == old(frame) && chunks == old(chunks)[1..]
    {
      hide Core;
      hide Free;
      hide Consume;
      ghost var m := Abs();
      var c := ShiftChunk();
      buffered := buffered - c.length;
      assert Abs() == m.(unread := m.unread[c.length..]);
      ConsumePayloadChunk(c);
    }

    /** `shift` of a chunk of which only the first `left` bytes belong to the frame. */
    method ShiftPart(left: nat) returns (c: Chunk)
      requires Core() && chunkOffset == 0 && chunks != [] && left < chunks[0].length
      modifies `chunks, `chunkOffset, `unread
      ensures Core() && chunkOffset == 0 && Free(c) && c.Valid() && c.buffer in Repr
      ensures left < c.length && left <= |old(unread)|
      ensures c.Subarray(0, left).Bytes() == old(unread)[..left]
      ensures c.Subarray(left, c.length).Bytes() + unread == old(unread)[left..]
    {
      hide Core;
      hide Free;
      c := ShiftChunk();
      PartsOf(c, left, old(unread));
    }

    /** The chunk reaches beyond the payload: the rest of it is put back. */
    method ConsumePart()
      requires Valid() && next == Payload && chunkOffset == 0 && chunks != []
      requires payloadConsumed + chunks[0].length > frame.size
      modifies this, masker, Repr
      ensures Valid() && Cfg() == old(Cfg()) && Repr == old(Repr)
      ensures old(frame.size - payloadConsumed) <= old(|unread|)
      ensures Abs() == TakePayload(Cfg(), old(Abs()), old(frame.size - payloadConsumed))
      ensures chunkOffset == 0 && frame == old(frame) && payloadConsumed == frame.size
    {
      hide Core;
      hide TakePayload;
      var left := frame.size - payloadConsumed;
      ConsumeLast(left);
      buffered := buffered - left;
    }

    method ConsumeLast(left: nat)
      requires Core() && error.None? && chunkOffset == 0 && chunks != [] && 0 < left < chunks[0].length
      requires payloadConsumed + left == frame.size && next == Payload && nextSize == 1
      requires role == Server ==> MaskerReady()
      modifies `payloadConsumed, `next, `nextSize, `error, `events, `chunks, `chunkOffset, `unread
      modifies `framePayload, `msgOpcode, `msgFragmented, `msgPayload, `control, `message
      modifies masker`offset, Repr
      ensures Core() && PhaseOk() && chunkOffset == 0
      ensures left <= |old(unread)| && |unread| == |old(unread)| - left && payloadConsumed == frame.size
      ensures Abs() == TakePayload(Cfg(), old(Abs()), left)
    {
      hide Core;
      hide Consume;
      hide Free;
      ghost var m := Abs();
      var c := ShiftPart(left);
      TakenAndPutBack(Cfg(), m, left, unread);
      hide TakePayload;
      ConsumeAndPutBack(c, left);
    }

    method ConsumeAndPutBack(c: Chunk, left: nat)
      requires Core() && error.None? && Free(c) && c.Valid() && 0 < left < c.length && chunkOffset == 0
      requires payloadConsumed + left == frame.size && next == Payload && nextSize == 1
      requires role == Server ==> MaskerReady()
      modifies `payloadConsumed, `next, `nextSize, `error, `events, `chunks, `chunkOffset, `unread
      modifies `framePayload, `msgOpcode, `msgFragmented, `msgPayload, `control, `message
      modifies masker`offset, c.buffer
      ensures Core() && PhaseOk() && chunkOffset == 0
      ensures Abs() == Consume(Cfg(), old(Abs()), old(c.Subarray(0, left).Bytes()))
                         .(unread := old(c.Subarray(left, c.length).Bytes()) + old(unread))
    {
      hide Core;
      hide Consume;
      hide Free;
      var leftover := ConsumeFront(c, left);
      PutBack(leftover);
    }

    /** Consumes the first `left` bytes of a chunk; the rest stays as it was and apart from all that is held. */
    method ConsumeFront(c: Chunk, left: nat) returns (leftover: Chunk)
      requires Core() && error.None? && Free(c) && 0 < left < c.length
      requires payloadConsumed + left == frame.size && next == Payload && nextSize == 1
      requires role == Server ==> MaskerReady()
      modifies `payloadConsumed, `next, `nextSize, `error, `events
      modifies `framePayload, `msgOpcode, `msgFragmented, `msgPayload, `control, `message
      modifies masker`offset, c.buffer
      ensures Core() && PhaseOk()
      ensures Abs() == Consume(Cfg(), old(Abs()), old(c.Subarray(0, left).Bytes()))
      ensures leftover == c.Subarray(left, c.length) && Free(leftover)
      ensures leftover.Bytes() == old(leftover.Bytes())
    {
      hide Core;
      hide Consume;
      var first := c.Subarray(0, left);
      leftover := c.Subarray(left, c.length);
      PartsApart(chunks, c, left);
      PartsApart(framePayload, c, left);
      PartsApart(msgPayload, c, left);
      ConsumePayloadChunk(first);
      FromApart(framePayload, old(framePayload), first, leftover);
      FromApart(msgPayload, old(msgPayload), first, leftover);
    }

    /** `unshift` */
    method PutBack(leftover: Chunk)
      requires Core() && chunkOffset == 0 && Free(leftover) && leftover.length > 0
      modifies `chunks, `chunkOffset, `unread
      ensures Core() && chunkOffset == 0 && unread == leftover.Bytes() + old(unread)
    {
      QueueInOrder();
      hide Core;
      UnshiftFits(chunks, leftover, Repr);
      UnshiftHolds(framePayload, chunks, leftover, Repr);
      UnshiftHolds(msgPayload, chunks, leftover, Repr);
      hide QueueFits;
      hide Holds;
      hide Rest;
      SetQueue([leftover] + chunks, 0);
    }

    lemma AbsOk()
      requires Valid()
      ensures Ok(Abs()) && |Abs().unread| == buffered
      ensures Ready(Abs()) <==> next != Nothing && buffered >= nextSize
      ensures unread != [] ==> chunks != []
    {
    }

    /** Before the payload loop the read position is the start of the first chunk. */
    method TrimForPayload()
      requires Valid() && unread != []
      modifies `chunks, `chunkOffset, `unread
      ensures Valid() && Abs() == old(Abs()) && chunkOffset == 0 && chunks != []
    {
      AbsOk();
      hide Core;
      hide PhaseOk;
      if chunkOffset != 0 {
        TrimCurrentChunk();
      }
    }

    /** The payload phase of `_transform`. */
    method ConsumeAvailable()
      requires Valid() && next == Payload && buffered >= nextSize
      modifies this, masker, Repr
      ensures Valid() && Cfg() == old(Cfg()) && Repr == old(Repr)
      ensures |unread| < old(|unread|)
      ensures Drain(Cfg(), Abs()) == old(Drain(Cfg(), Abs()))
    {
      AbsOk();
      hide Core;
      hide Drain;
      TrimForPayload();
      ConsumeChunks();
    }

    /** The payload loop: chunk after chunk until the payload is complete or no chunk is left. */
    method ConsumeChunks()
      requires Valid() && next == Payload && chunkOffset == 0 && chunks != []
      modifies this, masker, Repr
      ensures Valid() && Cfg() == old(Cfg()) && Repr == old(Repr)
      ensures |unread| < old(|unread|)
      ensures Drain(Cfg(), Abs()) == old(Drain(Cfg(), Abs()))
    {
      AbsOk();
      hide Core;
      hide PhaseOk;
      hide Drain;
      while |chunks| > 0
        invariant Valid() && Cfg() == old(Cfg()) && Repr == old(Repr)
        invariant next == Payload && chunkOffset == 0
        invariant |unread| < old(|unread|) || (unread == old(unread) && chunks != [])
        invariant Drain(Cfg(), Abs()) == old(Drain(Cfg(), Abs()))
        decreases |unread|
      {
        ConsumeStep();
        if payloadConsumed == frame.size {
          break;
        }
      }
    }

    /** One pass of the payload loop leaves the outcome of parsing unchanged. */
    method ConsumeStep()
      requires Valid() && next == Payload && chunkOffset == 0 && chunks != []
      modifies this, masker, Repr
      ensures Valid() && Cfg() == old(Cfg()) && Repr == old(Repr)
      ensures |unread| < old(|unread|)
      ensures Drain(Cfg(), Abs()) == old(Drain(Cfg(), Abs()))
      ensures chunkOffset == 0 && payloadConsumed <= frame.size && (payloadConsumed < frame.size ==> next == Payload)
    {
      AbsOk();
      hide Core;
      hide Drain;
      hide Consume;
      ghost var m := Abs();
      ghost var k := if chunks[0].length <= frame.size - payloadConsumed then chunks[0].length else frame.size - payloadConsumed;
      ConsumeFirst();
      Chunking.DrainPartial(Cfg(), m, k);
    }

    /** The bookkeeping of the queue: `#buffered` and `#chunkOffset` fit the chunks, none of which is empty. */
    lemma QueueBookkeeping()
      requires Valid()
      ensures AllValid(chunks) && buffered == |Contents(chunks)| - chunkOffset
      ensures forall c :: c in chunks ==> c.length > 0
      ensures if chunks == [] then chunkOffset == 0 else chunkOffset < chunks[0].length
      ensures Rest(chunks, chunkOffset) == Abs().unread
    {
      if chunks != [] {
        assert Contents(chunks) == chunks[0].Bytes() + Contents(chunks[1..]);
      }
    }

    // ---- the stream interface

    method ParseHeader1()
      requires Valid() && next == Header1 && buffered >= nextSize
      modifies this, masker, scratch, emptyBuffer
      ensures Valid() && Cfg() == old(Cfg()) && Repr == old(Repr)
      ensures |unread| < old(|unread|) && Drain(Cfg(), Abs()) == old(Drain(Cfg(), Abs()))
    {
      AbsOk();
      StepFirst(Cfg(), Abs());
      hide Core;
      hide Drain;
      hide Step;
      hide ReadHeader1;
      Read16BitHeader();
    }

    method ParseHeader2()
      requires Valid() && next == Header2 && buffered >= nextSize
      modifies this, masker, scratch, emptyBuffer
      ensures Valid() && Cfg() == old(Cfg()) && Repr == old(Repr)
      ensures |unread| < old(|unread|) && Drain(Cfg(), Abs()) == old(Drain(Cfg(), Abs()))
    {
      AbsOk();
      StepFirst(Cfg(), Abs());
      hide Core;
      hide Drain;
      hide Step;
      hide ReadHeader2;
      ReadRestOfHeader();
    }

    /** The loop of `_transform`: parses until more bytes are needed or the reader is destroyed. */
    method Parse()
      requires Valid()
      modifies this, masker, scratch, Repr
      ensures Valid() && Cfg() == old(Cfg()) && Repr == old(Repr)
      ensures Abs() == old(Drain(Cfg(), Abs()))
    {
      hide Core;
      hide Drain;
      AbsOk();
      while next != Nothing && buffered >= nextSize
        invariant Valid() && Cfg() == old(Cfg()) && Repr == old(Repr)
        invariant Drain(Cfg(), Abs()) == old(Drain(Cfg(), Abs()))
        decreases |unread|
      {
        ParsePass();
      }
      AbsOk();
      NothingToDrain(Cfg(), Abs());
    }

    /** One pass: each phase that has its bytes, in turn. */
    method ParsePass()
      requires Valid() && next != Nothing && buffered >= nextSize
      modifies this, masker, scratch, Repr
      ensures Valid() && Cfg() == old(Cfg()) && Repr == old(Repr)
      ensures |unread| < old(|unread|) && Drain(Cfg(), Abs()) == old(Drain(Cfg(), Abs()))
    {
      EmptyIsFree();
      hide Core;
      hide PhaseOk;
      hide Drain;
      hide Free;
      if next == Header1 && buffered >= nextSize {
        ParseHeader1();
      }
      if next == Header2 && buffered >= nextSize {
        ParseHeader2();
      }
      if next == Payload && buffered >= nextSize {
        ConsumeAvailable();
      }
    }

    /** `_transform`: a new chunk, in memory apart from what is held, is parsed as the pure machine parses its bytes. */
    method Transform(chunk: Chunk)
      requires Valid() && chunk.Valid() && chunk.buffer != scratch
      requires ApartFrom(chunks, chunk) && ApartFrom(framePayload, chunk) && ApartFrom(msgPayload, chunk)
      modifies this, masker, scratch, Repr, chunk.buffer
      ensures Valid() && Cfg() == old(Cfg()) && Repr <= old(Repr) + {chunk.buffer}
      ensures Abs() == Drain(old(Cfg()), Feed(old(Abs()), old(chunk.Bytes())))
    {
      AbsOk();
      hide Core;
      hide Drain;
      if chunk.length > 0 {
        Enqueue(chunk);
      } else {
        assert Feed(Abs(), chunk.Bytes()) == Abs();
      }
      Parse();
    }

    method Enqueue(chunk: Chunk)
      requires Valid() && chunk.Valid() && chunk.length > 0 && chunk.buffer != scratch
      requires ApartFrom(chunks, chunk) && ApartFrom(framePayload, chunk) && ApartFrom(msgPayload, chunk)
      modifies `chunks, `chunkOffset, `buffered, `unread, `Repr
      ensures Valid() && Repr == old(Repr) + {chunk.buffer}
      ensures Abs() == Feed(old(Abs()), chunk.Bytes())
    {
      hide Core;
      hide PhaseOk;
      hide ApartFrom;
      PushChunk(chunk);
      buffered := buffered + chunk.length;
    }

    method PushChunk(chunk: Chunk)
      requires Core() && chunk.Valid() && chunk.length > 0 && chunk.buffer != scratch
      requires ApartFrom(chunks, chunk) && ApartFrom(framePayload, chunk) && ApartFrom(msgPayload, chunk)
      modifies `chunks, `chunkOffset, `unread, `Repr
      ensures Core() && Repr == old(Repr) + {chunk.buffer}
      ensures unread == old(unread) + chunk.Bytes()
    {
      QueueInOrder();
      hide Core;
      hide QueueFits;
      hide Holds;
      hide Rest;
      hide ApartFrom;
      EnqueuedFits(chunks, chunkOffset, chunk, Repr);
      EnqueuedHolds(framePayload, chunks, chunk, Repr);
      EnqueuedHolds(msgPayload, chunks, chunk, Repr);
      Adopt(chunk.buffer);
      SetQueue(chunks + [chunk], chunkOffset);
    }

    /** Another buffer may be shown by the views held. */
    method Adopt(buffer: array<byte>)
      requires Core() && buffer != scratch
      modifies `Repr
      ensures Core() && Repr == old(Repr) + {buffer}
    {
      hide Rest;
      hide PairwiseApart;
      hide AllApart;
      Repr := Repr + {buffer};
    }

    /** A server that closes first accepts whatever code the client echoes. */
    method AcceptAnyCloseCode()
      modifies `checkCloseCode
      ensures (old(Valid()) ==> Valid()) && Abs() == old(Abs()) && Cfg() == old(Cfg()).(checkCloseCode := false)
    {
      checkCloseCode := false;
    }
  }

  lemma EnqueuedFits(cs: seq<Chunk>, position: nat, c: Chunk, repr: set<array<byte>>)
    requires QueueFits(cs, position, repr) && c.Valid() && c.length > 0 && ApartFrom(cs, c)
    ensures QueueFits(cs + [c], position, repr + {c.buffer})
    ensures Rest(cs + [c], position) == Rest(cs, position) + c.Bytes()
  {
    var t := cs + [c];
    forall i, j | 0 <= i < j < |t|
      ensures Apart(t[i], t[j])
    {
      assert cs != [] ==> cs[i] in cs;
    }
    ContentsConcat(cs, [c]);
    assert Contents([c]) == c.Bytes() + [];
  }

  lemma EnqueuedHolds(held: seq<Chunk>, cs: seq<Chunk>, c: Chunk, repr: set<array<byte>>)
    requires Holds(held, cs, repr) && ApartFrom(held, c)
    ensures Holds(held, cs + [c], repr + {c.buffer})
  {
  }

  lemma StepFirst(cfg: Config, m: Machine)
    requires Ok(m) && Ready(m)
    ensures Drain(cfg, Step(cfg, m)) == Drain(cfg, m)
    ensures m.next == Header1 ==> Step(cfg, m) == ReadHeader1(cfg, m)
    ensures m.next == Header2 ==> Step(cfg, m) == ReadHeader2(cfg, m)
  {
    hide ReadHeader1;
    hide ReadHeader2;
    hide TakePayload;
  }

  lemma NothingToDrain(cfg: Config, m: Machine)
    requires Ok(m) && !Ready(m)
    ensures Drain(cfg, m) == m
  {
  }

  /** The two parts of a view are apart from each other and from all it is apart from. */
  lemma PartsApart(cs: seq<Chunk>, c: Chunk, k: nat)
    requires c.Valid() && k <= c.length && ApartFrom(cs, c)
    ensures ApartFrom(cs, c.Subarray(0, k)) && ApartFrom(cs, c.Subarray(k, c.length))
    ensures Apart(c.Subarray(0, k), c.Subarray(k, c.length))
  {
  }

  lemma FromApart(now: seq<Chunk>, before: seq<Chunk>, first: Chunk, leftover: Chunk)
    requires From(now, before, first) && ApartFrom(before, leftover) && Apart(first, leftover)
    ensures ApartFrom(now, leftover)
  {
  }

  lemma UnshiftFits(cs: seq<Chunk>, c: Chunk, repr: set<array<byte>>)
    requires QueueFits(cs, 0, repr) && c.Valid() && c.length > 0 && c.buffer in repr && ApartFrom(cs, c)
    ensures QueueFits([c] + cs, 0, repr) && Rest([c] + cs, 0) == c.Bytes() + Rest(cs, 0)
  {
    var t := [c] + cs;
    assert t[1..] == cs;
    forall i, j | 0 <= i < j < |t|
      ensures Apart(t[i], t[j])
    {
      if i > 0 {
        assert Apart(cs[i - 1], cs[j - 1]);
      } else {
        assert cs[j - 1] in cs;
      }
    }
  }

  lemma UnshiftHolds(held: seq<Chunk>, cs: seq<Chunk>, c: Chunk, repr: set<array<byte>>)
    requires Holds(held, cs, repr) && ApartFrom(held, c)
    ensures Holds(held, [c] + cs, repr)
  {
  }

  /** A data header without fault, an empty final frame being complete. */
  function DataHeader(cfg: Config, m: Machine): Machine
    requires m.error.None? && m.consumed <= m.head.size
  {
    var empty := m.head.size == 0 && m.head.fin;
    if m.head.opcode == CONTINUATION then
      if empty then Consume(cfg, m, []) else m
    else
      var m := m.(message := Assembly(Some(m.head.opcode), !m.head.fin, []));
      if empty then Decoder.EmitMessage(cfg, m) else m
  }

  lemma HeaderActs(cfg: Config, m: Machine)
    requires m.error.None? && HeaderFault(cfg.role, m.message.fragmented, m.head).None?
    requires m.consumed == 0 && m.next == if m.head.size > 0 then Payload else Header1
    ensures Decoder.HandleHeader(cfg, m)
         == if IsData(m.head.opcode) then DataHeader(cfg, m) else if m.head.size == 0 then HandleControl(cfg, m) else m
  {
    hide Consume;
    hide HandleControl;
    hide Decoder.EmitMessage;
  }

  lemma PayloadIsMasked(role: Role, fragmented: bool, h: Head)
    requires HeaderFault(role, fragmented, h).None? && h.size > 0
    ensures role == Server ==> h.hasMask
  {
  }

  /** The two parts of a view at the front of `unread`. */
  lemma PartsOf(c: Chunk, left: nat, unread: seq<byte>)
    requires c.Valid() && left <= c.length <= |unread| && c.Bytes() == unread[..c.length]
    ensures c.Subarray(0, left).Bytes() == unread[..left]
    ensures c.Subarray(left, c.length).Bytes() + unread[c.length..] == unread[left..]
  {
    assert c.Subarray(0, left).Bytes() == c.Bytes()[..left];
    assert c.Subarray(left, c.length).Bytes() == c.Bytes()[left..];
    assert unread[..c.length][left..] + unread[c.length..] == unread[left..];
  }

  /** What is unread while a part of the payload is consumed does not matter. */
  lemma TakenAndPutBack(cfg: Config, m: Machine, k: nat, meanwhile: seq<byte>)
    requires m.error.None? && k <= |m.unread| && m.consumed + k <= m.head.size
    ensures Consume(cfg, m.(unread := meanwhile), m.unread[..k]).(unread := m.unread[k..]) == TakePayload(cfg, m, k)
  {
    Chunking.ConsumePassive(cfg, m, m.unread[..k], meanwhile);
    Chunking.ConsumePassive(cfg, m, m.unread[..k], m.unread[k..]);
    hide Consume;
  }

  lemma ConsumeIsStore(cfg: Config, m: Machine, raw: seq<byte>)
    requires m.error.None? && m.consumed + |raw| <= m.head.size
    ensures var final := m.consumed + |raw| == m.head.size;
            var counted := m.(consumed := m.consumed + |raw|, next := if final then Header1 else m.next);
            Consume(cfg, m, raw) == Store(cfg, counted, Plain(cfg.role, m.head, m.consumed, raw), final)
  {
    hide Plain;
    hide Store;
  }

  lemma PositionStep(consumed: nat, more: nat)
    ensures (consumed % 4 + more) % 4 == (consumed + more) % 4
  {
    SameResidue(consumed + more, consumed % 4 + more, consumed / 4);
  }

  lemma FirstBytes(cs: seq<Chunk>, position: nat, n: nat)
    requires AllValid(cs) && cs != [] && position + n <= cs[0].length
    ensures cs[0].Valid() && n <= |Rest(cs, position)|
    ensures cs[0].buffer[cs[0].offset + position..cs[0].offset + position + n] == Rest(cs, position)[..n]
  {
    var c := cs[0];
    var later := Contents(cs[1..]);
    assert Contents(cs) == c.Bytes() + later;
    assert (c.Bytes() + later)[position..][..n] == c.Bytes()[position..position + n];
    assert c.Bytes()[position..position + n] == c.buffer[c.offset + position..c.offset + position + n];
  }

  lemma MaskEffect(key: Key, position: nat, consumed: nat, before: seq<byte>, lo: nat, hi: nat)
    requires lo <= hi <= |before| && (lo < hi ==> position == consumed % 4)
    ensures Masked(key, position, before, lo, hi)[lo..hi] == Xored(key, consumed, before[lo..hi])
    ensures forall j :: 0 <= j < |before| && !(lo <= j < hi) ==> Masked(key, position, before, lo, hi)[j] == before[j]
  {
    MaskedStretch(key, position, before, lo, hi);
    if lo < hi {
      XoredMod(key, consumed, position, before[lo..hi]);
    }
    hide Xored;
  }

  lemma FirstByte(cs: seq<Chunk>, position: nat)
    requires AllValid(cs) && cs != [] && position < cs[0].length
    ensures cs[0].Valid() && Rest(cs, position) != []
    ensures Rest(cs, position)[0] == cs[0].buffer[cs[0].offset + position]
  {
    assert cs[0].Valid();
    assert Contents(cs) == cs[0].Bytes() + Contents(cs[1..]);
    assert Rest(cs, position)[0] == Contents(cs)[position];
  }

  lemma ContentsSnoc(cs: seq<Chunk>, k: nat)
    requires AllValid(cs) && k < |cs|
    ensures |Contents(cs[..k + 1])| == |Contents(cs[..k])| + cs[k].length
  {
    assert cs[..k + 1] == cs[..k] + [cs[k]];
    assert Contents([cs[k]]) == cs[k].Bytes() + [];
    ContentsConcat(cs[..k], [cs[k]]);
  }

  lemma CutFits(cs: seq<Chunk>, count: nat, found: nat, n: nat, repr: set<array<byte>>)
    requires QueueFits(cs, 0, repr) && 0 < count <= |cs| && found == |Contents(cs[..count])|
    requires found - cs[count - 1].length < n <= found
    ensures var k := if found == n then count else count - 1;
            var position := if found == n then 0 else cs[count - 1].length - (found - n);
            && QueueFits(cs[k..], position, repr)
            && n <= |Contents(cs)|
            && Rest(cs[k..], position) == Contents(cs)[n..]
  {
    hide Contents;
    hide PairwiseApart;
    SuffixFits(cs, count, 0, repr);
    if found != n {
      ContentsSnoc(cs, count - 1);
      SuffixFits(cs, count - 1, 0, repr);
    }
  }

  // ---- whole runs

  /** Chunks in memory of their own, holding `data`. */
  ghost predicate ChunksFor(r: ProtocolReader, cs: seq<Chunk>, data: seq<seq<byte>>)
    reads r, set c | c in cs :: c.buffer
  {
    && |data| == |cs|
    && (forall i :: 0 <= i < |cs| ==> cs[i].Valid() && cs[i].Bytes() == data[i])
    && (forall i :: 0 <= i < |cs| ==> cs[i].buffer !in r.Repr && cs[i].buffer != r.scratch)
    && (forall i, j :: 0 <= i < j < |cs| ==> cs[i].buffer != cs[j].buffer)
  }

  lemma OwnIsApart(r: ProtocolReader, chunk: Chunk)
    requires r.Valid() && chunk.buffer !in r.Repr
    ensures ApartFrom(r.chunks, chunk) && ApartFrom(r.framePayload, chunk) && ApartFrom(r.msgPayload, chunk)
  {
    hide Rest;
    hide Contents;
    hide PairwiseApart;
    hide AllApart;
  }

  method TransformFirst(r: ProtocolReader, cs: seq<Chunk>, ghost data: seq<seq<byte>>)
    requires r.Valid() && cs != [] && ChunksFor(r, cs, data)
    modifies r, r.masker, r.scratch, r.Repr, cs[0].buffer
    ensures r.Valid() && r.Cfg() == old(r.Cfg()) && r.Repr <= old(r.Repr) + {cs[0].buffer}
    ensures ChunksFor(r, cs[1..], data[1..])
    ensures r.Abs() == Drain(old(r.Cfg()), Feed(old(r.Abs()), data[0]))
  {
    OwnIsApart(r, cs[0]);
    hide r.Valid;
    hide ApartFrom;
    hide Drain;
    r.Transform(cs[0]);
  }

  /** The stream passes the chunks from `first` up to `last` to `_transform`: the object ends where the pure machine does. */
  method TransformAll(r: ProtocolReader, cs: seq<Chunk>, first: nat, last: nat, ghost data: seq<seq<byte>>)
    requires r.Valid() && first <= last <= |cs| == |data| && ChunksFor(r, cs[first..], data[first..])
    modifies r, r.masker, r.scratch, r.Repr, set c | c in cs :: c.buffer
    ensures r.Valid() && r.Cfg() == old(r.Cfg()) && r.Repr <= old(r.Repr) + set c | c in cs :: c.buffer
    ensures ChunksFor(r, cs[last..], data[last..])
    ensures r.Abs() == FeedAll(old(r.Cfg()), old(r.Abs()), data[first..last])
  {
    hide ProtocolReader.Valid;
    hide ProtocolReader.Core;
    hide Drain;
    hide Ok;
    hide ChunksFor;
    r.AbsOk();
    ghost var cfg, repr, buffers := r.Cfg(), r.Repr, set c | c in cs :: c.buffer;
    for i := first to last
      invariant r.Valid() && r.Cfg() == cfg && r.Repr <= repr + buffers
      invariant ChunksFor(r, cs[i..], data[i..])
      invariant Ok(r.Abs()) && FeedAll(cfg, r.Abs(), data[i..last]) == FeedAll(cfg, old(r.Abs()), data[first..last])
    {
      assert cs[i..][0] == cs[i] && cs[i..][1..] == cs[i + 1..];
      assert data[i..][0] == data[i] && data[i..][1..] == data[i + 1..];
      assert data[i..last][0] == data[i] && data[i..last][1..] == data[i + 1..last];
      TransformFirst(r, cs[i..], data[i..]);
    }
  }
}
