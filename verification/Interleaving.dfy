/** The writer under concurrent callers: `send`, `close`, `ping` and `pong` calls as step sequences between their awaits,
    interleaved in every possible order over the message and the frame mutex. */
module Interleaving {
  import opened Bytes
  import opened Masking
  import opened Frames
  import opened Writer
  import Decoder

  /** `encode` is the UTF-8 encoder for close reasons. */
  datatype Setup = Setup(isClient: bool, zeroMasking: bool, maxFragmentSize: nat, encode: string -> seq<byte>)

  /** A call that takes the message mutex. */
  datatype Call = SendMessage(text: bool, data: seq<byte>) | CloseWith(code: nat, reason: Option<string>)

  /** Where a call stands: waiting for the message mutex, its frame from offset `from` in the frame queue, that frame
      released, or, for a close, thrown or resolved, in both cases without ever unlocking. */
  datatype Stage = Waiting | Writing(from: nat) | Written(from: nat) | Refused | Closed

  datatype Turn = Turn(call: Call, stage: Stage)

  /** Where a `#writeFrame` call stands: waiting for the frame mutex, holding it, its header written, all written. */
  datatype Progress = Queued | Locked(mask: Option<bv32>) | HeadWritten(mask: Option<bv32>) | Finished

  datatype Job = Job(frame: OutFrame, progress: Progress)

  /** The mutexes are queues of their unreleased keys. The last four fields only record the run: frames written in full, frames
      passed to `#writeFrame`, calls of `send` and `close`, frames of `ping` and `pong` calls; `done` calls have unlocked. */
  datatype State = State(turns: seq<Turn>, jobs: seq<Job>, wire: seq<byte>, bufferedAmount: int, checkCloseCode: bool,
                         log: seq<Sent>, submitted: seq<OutFrame>, calls: seq<Call>, controls: seq<OutFrame>, done: nat)

  const INITIAL := State([], [], [], 0, true, [], [], [], [], 0)

  datatype Action =
    | Make(call: Call)
    | MakeControl(ping: bool, payload: seq<byte>)
    | TrustCodes
    | TakeTurn
    | LockFrame(random: bv32)
    | WriteHead
    | WriteBody
    | ReleaseFrame
    | Continue

  // ---- close

  predicate CodeMaySend(isClient: bool, code: nat) {
    || (isClient && code == 1000)
    || (!isClient && code in Decoder.VALID_SERVER_CODES)
    || 3000 <= code <= 4999
  }

  function ClosePayload(setup: Setup, code: nat, reason: Option<string>): seq<byte> {
    EncodeBE(code, 2)
    + match reason
      case None => []
      case Some(text) => setup.encode(if |text| > 123 then text[..123] else text)
  }

  function CloseFrame(setup: Setup, code: nat, reason: Option<string>): OutFrame {
    OutFrame(CLOSE, ClosePayload(setup, code, reason), true)
  }

  /** `close` throws, still holding the message mutex. */
  predicate CloseThrows(setup: Setup, checkCloseCode: bool, code: nat, reason: Option<string>) {
    || (checkCloseCode && !CodeMaySend(setup.isClient, code))
    || (reason.Some? && |ClosePayload(setup, code, reason)| > 125)
  }

  // ---- steps

  predicate Enabled(setup: Setup, s: State, a: Action) {
    match a
    case Make(SendMessage(_, data)) => |data| <= MAX_SAFE_INTEGER
    case Make(CloseWith(code, _)) => code < 0x1_0000
    case MakeControl(_, payload) => |payload| <= MAX_SAFE_INTEGER
    case TrustCodes => true
    case TakeTurn => s.turns != [] && s.turns[0].stage.Waiting?
    case LockFrame(_) => s.jobs != [] && s.jobs[0].progress.Queued?
    case WriteHead => s.jobs != [] && s.jobs[0].progress.Locked?
    case WriteBody => s.jobs != [] && s.jobs[0].progress.HeadWritten?
    case ReleaseFrame => s.jobs != [] && s.jobs[0].progress.Finished?
    case Continue => s.turns != [] && s.turns[0].stage.Written? && s.turns[0].call.SendMessage?
  }

  function Submit(s: State, frame: OutFrame): State {
    s.(jobs := s.jobs + [Job(frame, Queued)], submitted := s.submitted + [frame])
  }

  function SetStage(s: State, stage: Stage): State
    requires s.turns != []
  {
    s.(turns := [s.turns[0].(stage := stage)] + s.turns[1..])
  }

  function SetProgress(s: State, progress: Progress): State
    requires s.jobs != []
  {
    s.(jobs := [s.jobs[0].(progress := progress)] + s.jobs[1..])
  }

  function Log(s: State, mask: Option<bv32>): State
    requires s.jobs != []
  {
    SetProgress(s, Finished).(log := s.log + [Sent(s.jobs[0].frame, mask)])
  }

  function Size(call: Call): nat {
    if call.SendMessage? then |call.data| else 0
  }

  function WriteFragment(setup: Setup, s: State, from: nat): State
    requires s.turns != [] && s.turns[0].call.SendMessage? && from <= |s.turns[0].call.data|
  {
    var call := s.turns[0].call;
    SetStage(Submit(s, FragmentAt(call.text, call.data, setup.maxFragmentSize, from)), Writing(from))
  }

  function MakeStep(s: State, call: Call): State {
    s.(turns := s.turns + [Turn(call, Waiting)], calls := s.calls + [call], bufferedAmount := s.bufferedAmount + Size(call))
  }

  function ControlStep(s: State, ping: bool, payload: seq<byte>): State {
    var frame := OutFrame(if ping then PING else PONG, payload, true);
    Submit(s, frame).(controls := s.controls + [frame])
  }

  /** The message mutex is granted to the first call. */
  function TurnStep(setup: Setup, s: State): State
    requires s.turns != []
  {
    match s.turns[0].call
    case SendMessage(_, _) => WriteFragment(setup, s, 0)
    case CloseWith(code, reason) =>
      if CloseThrows(setup, s.checkCloseCode, code, reason) then SetStage(s, Stage.Refused)
      else SetStage(Submit(s, CloseFrame(setup, code, reason)), Writing(0))
  }

  function HeadStep(s: State): State
    requires s.jobs != [] && s.jobs[0].progress.Locked?
  {
    var mask := s.jobs[0].progress.mask;
    var s := s.(wire := s.wire + HeadBytes(Sent(s.jobs[0].frame, mask)));
    if s.jobs[0].frame.payload == [] then Log(s, mask) else SetProgress(s, HeadWritten(mask))
  }

  function BodyStep(s: State): State
    requires s.jobs != [] && s.jobs[0].progress.HeadWritten?
  {
    var mask := s.jobs[0].progress.mask;
    Log(s.(wire := s.wire + BodyBytes(Sent(s.jobs[0].frame, mask))), mask)
  }

  /** The frame mutex is unlocked; a message's own call goes on. */
  function ReleaseStep(s: State): State
    requires s.jobs != []
  {
    var released := s.(jobs := s.jobs[1..]);
    if Aside(s.jobs[0].frame) || s.turns == [] || !s.turns[0].stage.Writing? then released
    else SetStage(released, if s.turns[0].call.CloseWith? then Closed else Written(s.turns[0].stage.from))
  }

  /** The loop over the fragments of a message; after the last the message mutex is unlocked. */
  function ContinueStep(setup: Setup, s: State): State
    requires s.turns != [] && s.turns[0].stage.Written? && s.turns[0].call.SendMessage?
  {
    var call, next := s.turns[0].call, s.turns[0].stage.from + setup.maxFragmentSize;
    if next < |call.data| then WriteFragment(setup, s, next)
    else s.(turns := s.turns[1..], done := s.done + 1, bufferedAmount := s.bufferedAmount - Size(call))
  }

  function Next(setup: Setup, s: State, a: Action): State
    requires Enabled(setup, s, a)
  {
    match a
    case Make(call) => MakeStep(s, call)
    case MakeControl(ping, payload) => ControlStep(s, ping, payload)
    case TrustCodes => s.(checkCloseCode := false)
    case TakeTurn => TurnStep(setup, s)
    case LockFrame(random) => SetProgress(s, Locked(MaskFor(setup.isClient, setup.zeroMasking, random)))
    case WriteHead => HeadStep(s)
    case WriteBody => BodyStep(s)
    case ReleaseFrame => ReleaseStep(s)
    case Continue => ContinueStep(setup, s)
  }

  lemma NextMessageStep(setup: Setup, s: State, a: Action)
    requires Enabled(setup, s, a)
    ensures a.Make? ==> Next(setup, s, a) == MakeStep(s, a.call)
    ensures a.TakeTurn? ==> Next(setup, s, a) == TurnStep(setup, s)
    ensures a.ReleaseFrame? ==> Next(setup, s, a) == ReleaseStep(s)
    ensures a.Continue? ==> Next(setup, s, a) == ContinueStep(setup, s)
  {
    hide MakeStep;
    hide TurnStep;
    hide ReleaseStep;
    hide ContinueStep;
  }

  predicate Possible(setup: Setup, s: State, actions: seq<Action>)
    decreases |actions|
  {
    actions == [] || (Enabled(setup, s, actions[0]) && Possible(setup, Next(setup, s, actions[0]), actions[1..]))
  }

  function After(setup: Setup, s: State, actions: seq<Action>): State
    requires Possible(setup, s, actions)
    decreases |actions|
  {
    if actions == [] then s else After(setup, Next(setup, s, actions[0]), actions[1..])
  }

  // ---- lists of frames

  /** Pings and pongs, which pass between the fragments of messages. */
  predicate Aside(f: OutFrame) {
    f.opcode == PING || f.opcode == PONG
  }

  predicate Within(f: OutFrame) {
    !Aside(f)
  }

  function Where(keep: OutFrame -> bool, fs: seq<OutFrame>): seq<OutFrame> {
    if fs == [] then [] else (if keep(fs[0]) then [fs[0]] else []) + Where(keep, fs[1..])
  }

  lemma {:induction false} WhereConcat(keep: OutFrame -> bool, a: seq<OutFrame>, b: seq<OutFrame>)
    ensures Where(keep, a + b) == Where(keep, a) + Where(keep, b)
  {
    if a == [] {
      assert a + b == b;
    } else {
      var first := if keep(a[0]) then [a[0]] else [];
      assert (a + b)[1..] == a[1..] + b && (a + b)[0] == a[0];
      WhereConcat(keep, a[1..], b);
      Assoc(first, Where(keep, a[1..]), Where(keep, b));
    }
  }

  lemma WhereSnoc(keep: OutFrame -> bool, fs: seq<OutFrame>, f: OutFrame)
    ensures Where(keep, fs + [f]) == Where(keep, fs) + if keep(f) then [f] else []
  {
    WhereConcat(keep, fs, [f]);
    assert Where(keep, [f]) == (if keep(f) then [f] else []) + [];
  }

  function LogFrames(log: seq<Sent>): (fs: seq<OutFrame>)
    ensures |fs| == |log|
  {
    seq(|log|, i requires 0 <= i < |log| => log[i].frame)
  }

  function JobFrames(jobs: seq<Job>): (fs: seq<OutFrame>)
    ensures |fs| == |jobs|
  {
    seq(|jobs|, i requires 0 <= i < |jobs| => jobs[i].frame)
  }

  function FramesOf(setup: Setup, call: Call): seq<OutFrame>
    requires setup.maxFragmentSize >= 1
  {
    match call
    case SendMessage(text, data) => Fragments(text, data, setup.maxFragmentSize)
    case CloseWith(code, reason) => [CloseFrame(setup, code, reason)]
  }

  function AllFrames(setup: Setup, calls: seq<Call>): seq<OutFrame>
    requires setup.maxFragmentSize >= 1
  {
    if calls == [] then []
    else AllFrames(setup, calls[..|calls| - 1]) + FramesOf(setup, calls[|calls| - 1])
  }

  function TotalSize(turns: seq<Turn>): nat {
    if turns == [] then 0 else Size(turns[0].call) + TotalSize(turns[1..])
  }

  // ---- invariants

  /** Frames passed to `#writeFrame` and not yet written in full. */
  function Unwritten(jobs: seq<Job>): seq<OutFrame> {
    if jobs != [] && jobs[0].progress.Finished? then JobFrames(jobs[1..]) else JobFrames(jobs)
  }

  /** The part of a frame on the wire: its header. */
  function PartialBytes(jobs: seq<Job>): seq<byte> {
    if jobs != [] && jobs[0].progress.HeadWritten? then HeadBytes(Sent(jobs[0].frame, jobs[0].progress.mask)) else []
  }

  predicate MaskFits(setup: Setup, mask: Option<bv32>) {
    mask.Some? == setup.isClient && (setup.zeroMasking && mask.Some? ==> mask.value == 0)
  }

  /** The frame queue: written frames, then waiting ones, in the order of the `#writeFrame` calls. */
  ghost predicate QueueOk(setup: Setup, jobs: seq<Job>, log: seq<Sent>, submitted: seq<OutFrame>) {
    && LogFrames(log) + Unwritten(jobs) == submitted
    && (forall i :: 0 < i < |jobs| ==> jobs[i].progress.Queued?)
    && (jobs != [] && jobs[0].progress.HeadWritten? ==> jobs[0].frame.payload != [])
    && (jobs != [] && (jobs[0].progress.Locked? || jobs[0].progress.HeadWritten?) ==> MaskFits(setup, jobs[0].progress.mask))
    && (forall i :: 0 <= i < |log| ==> MaskFits(setup, log[i].mask))
  }

  ghost predicate FramesInv(setup: Setup, s: State) {
    QueueOk(setup, s.jobs, s.log, s.submitted) && s.wire == WireBytes(s.log) + PartialBytes(s.jobs)
  }

  /** The frames the first call has still to pass to `#writeFrame`. */
  function Ahead(setup: Setup, turns: seq<Turn>): seq<OutFrame>
    requires setup.maxFragmentSize >= 1 && (turns != [] ==> StageFits(turns[0]))
  {
    if turns == [] then []
    else
      match turns[0].stage
      case Waiting => FramesOf(setup, turns[0].call)
      case Refused => []
      case Closed => []
      case Writing(from) => Behind(setup, turns[0].call, from)
      case Written(from) => Behind(setup, turns[0].call, from)
  }

  /** The fragments behind the one that begins at `from`. */
  function Behind(setup: Setup, call: Call, from: nat): seq<OutFrame>
    requires setup.maxFragmentSize >= 1 && (call.SendMessage? ==> from <= |call.data|)
  {
    match call
    case CloseWith(_, _) => []
    case SendMessage(text, data) =>
      if from + setup.maxFragmentSize >= |data| then []
      else FragmentsFrom(text, data, setup.maxFragmentSize, from + setup.maxFragmentSize)
  }

  /** All frames of the first call; none if it threw. */
  function Total(setup: Setup, turns: seq<Turn>): seq<OutFrame>
    requires setup.maxFragmentSize >= 1
  {
    if turns == [] || turns[0].stage.Refused? then [] else FramesOf(setup, turns[0].call)
  }

  predicate StageFits(t: Turn) {
    match t.stage
    case Waiting => true
    case Writing(from) => if t.call.SendMessage? then from <= |t.call.data| else from == 0
    case Written(from) => t.call.SendMessage? && from <= |t.call.data|
    case Refused => t.call.CloseWith?
    case Closed => t.call.CloseWith?
  }

  /** The frame the first call has in the frame queue. */
  function InQueue(setup: Setup, turns: seq<Turn>): seq<OutFrame>
    requires turns != [] ==> StageFits(turns[0])
  {
    if turns == [] || !turns[0].stage.Writing? then []
    else
      match turns[0].call
      case SendMessage(text, data) => [FragmentAt(text, data, setup.maxFragmentSize, turns[0].stage.from)]
      case CloseWith(code, reason) => [CloseFrame(setup, code, reason)]
  }

  /** The message queue: calls are served in order, each passing on its frames one by one; `queue` is the frame queue. */
  ghost predicate TurnsOk(setup: Setup, turns: seq<Turn>, queue: seq<OutFrame>, submitted: seq<OutFrame>,
                          calls: seq<Call>, done: nat)
    requires setup.maxFragmentSize >= 1
  {
    && done + |turns| == |calls|
    && (forall i :: 0 <= i < |turns| ==> turns[i].call == calls[done + i])
    && (forall i :: 0 < i < |turns| ==> turns[i].stage.Waiting?)
    && (forall i :: 0 <= i < done ==> calls[i].SendMessage?)
    && (turns != [] ==> StageFits(turns[0]))
    && Where(Within, submitted) + Ahead(setup, turns) == AllFrames(setup, calls[..done]) + Total(setup, turns)
    && Where(Within, queue) == InQueue(setup, turns)
  }

  ghost predicate TurnsInv(setup: Setup, s: State)
    requires setup.maxFragmentSize >= 1
  {
    TurnsOk(setup, s.turns, JobFrames(s.jobs), s.submitted, s.calls, s.done)
  }

  // ---- every step keeps the frame queue in order

  lemma SubmitKeepsFrames(setup: Setup, s: State, f: OutFrame)
    requires FramesInv(setup, s)
    ensures FramesInv(setup, Submit(s, f))
  {
    hide WireBytes;
    var t := Submit(s, f);
    assert JobFrames(t.jobs) == JobFrames(s.jobs) + [f];
    assert s.jobs != [] ==> t.jobs[1..] == s.jobs[1..] + [Job(f, Queued)];
    assert Unwritten(t.jobs) == Unwritten(s.jobs) + [f];
  }

  /** A frame written in full moves from the waiting to the written ones. */
  lemma LogKeepsQueue(setup: Setup, s: State, mask: Option<bv32>)
    requires QueueOk(setup, s.jobs, s.log, s.submitted)
    requires s.jobs != [] && !s.jobs[0].progress.Finished? && MaskFits(setup, mask)
    ensures var t := Log(s, mask); QueueOk(setup, t.jobs, t.log, t.submitted)
  {
    hide MaskFits;
    var f := s.jobs[0].frame;
    LogMoves(s, mask);
    Assoc(LogFrames(s.log), [f], JobFrames(s.jobs[1..]));
    hide LogFrames;
    hide JobFrames;
  }

  lemma LogMoves(s: State, mask: Option<bv32>)
    requires s.jobs != []
    ensures Log(s, mask).jobs[1..] == s.jobs[1..]
    ensures JobFrames(s.jobs) == [s.jobs[0].frame] + JobFrames(s.jobs[1..])
    ensures LogFrames(Log(s, mask).log) == LogFrames(s.log) + [s.jobs[0].frame]
  {
  }

  lemma ProgressKeepsQueue(setup: Setup, s: State, p: Progress)
    requires QueueOk(setup, s.jobs, s.log, s.submitted)
    requires s.jobs != [] && !s.jobs[0].progress.Finished?
    requires (p.Locked? && MaskFits(setup, p.mask)) || (p.HeadWritten? && MaskFits(setup, p.mask) && s.jobs[0].frame.payload != [])
    ensures var t := SetProgress(s, p); QueueOk(setup, t.jobs, t.log, t.submitted)
  {
    hide MaskFits;
    assert JobFrames(SetProgress(s, p).jobs) == JobFrames(s.jobs);
  }

  lemma MaskFitsSetup(setup: Setup, random: bv32)
    ensures MaskFits(setup, MaskFor(setup.isClient, setup.zeroMasking, random))
  {
  }

  lemma LockKeepsFrames(setup: Setup, s: State, random: bv32)
    requires FramesInv(setup, s) && s.jobs != [] && s.jobs[0].progress.Queued?
    ensures FramesInv(setup, SetProgress(s, Locked(MaskFor(setup.isClient, setup.zeroMasking, random))))
  {
    MaskFitsSetup(setup, random);
    ProgressKeepsQueue(setup, s, Locked(MaskFor(setup.isClient, setup.zeroMasking, random)));
    hide QueueOk;
    hide WireBytes;
    hide MaskFor;
  }

  lemma HeadKeepsFrames(setup: Setup, s: State)
    requires FramesInv(setup, s) && s.jobs != [] && s.jobs[0].progress.Locked?
    ensures FramesInv(setup, HeadStep(s))
  {
    hide WireBytes;
    hide HeadBytes;
    var mask := s.jobs[0].progress.mask;
    var sent := Sent(s.jobs[0].frame, mask);
    assert MaskFits(setup, mask);
    assert s.wire == WireBytes(s.log) + [] == WireBytes(s.log);
    if s.jobs[0].frame.payload == [] {
      assert BodyBytes(sent) == [] && FrameBytes(sent) == HeadBytes(sent);
      LogKeepsQueue(setup, s, mask);
      WireSnoc(s.log, sent);
      hide QueueOk;
      assert WireBytes(s.log + [sent]) + [] == WireBytes(s.log) + HeadBytes(sent);
    } else {
      ProgressKeepsQueue(setup, s, HeadWritten(mask));
      hide QueueOk;
    }
  }

  lemma BodyKeepsFrames(setup: Setup, s: State)
    requires FramesInv(setup, s) && s.jobs != [] && s.jobs[0].progress.HeadWritten?
    ensures FramesInv(setup, BodyStep(s))
  {
    hide WireBytes;
    hide HeadBytes;
    hide BodyBytes;
    var mask := s.jobs[0].progress.mask;
    var sent := Sent(s.jobs[0].frame, mask);
    LogKeepsQueue(setup, s, mask);
    WireSnoc(s.log, sent);
    hide QueueOk;
    assert (WireBytes(s.log) + HeadBytes(sent)) + BodyBytes(sent) == WireBytes(s.log + [sent]) + [];
  }

  lemma ReleaseKeepsFrames(setup: Setup, s: State)
    requires FramesInv(setup, s) && s.jobs != [] && s.jobs[0].progress.Finished?
    ensures FramesInv(setup, ReleaseStep(s))
  {
    hide WireBytes;
    var rest := s.jobs[1..];
    assert rest != [] ==> rest[0] == s.jobs[1];
    assert Unwritten(rest) == JobFrames(rest);
  }

  lemma TurnKeepsFrames(setup: Setup, s: State)
    requires FramesInv(setup, s) && s.turns != []
    ensures FramesInv(setup, TurnStep(setup, s))
  {
    hide QueueOk;
    hide WireBytes;
    hide FragmentAt;
    hide CloseThrows;
    hide CloseFrame;
    match s.turns[0].call
    case SendMessage(text, data) => SubmitKeepsFrames(setup, s, FragmentAt(text, data, setup.maxFragmentSize, 0));
    case CloseWith(code, reason) => SubmitKeepsFrames(setup, s, CloseFrame(setup, code, reason));
  }

  lemma ContinueKeepsFrames(setup: Setup, s: State)
    requires FramesInv(setup, s) && s.turns != [] && s.turns[0].stage.Written? && s.turns[0].call.SendMessage?
    ensures FramesInv(setup, ContinueStep(setup, s))
  {
    hide QueueOk;
    hide WireBytes;
    hide FragmentAt;
    var call, next := s.turns[0].call, s.turns[0].stage.from + setup.maxFragmentSize;
    if next < |call.data| {
      SubmitKeepsFrames(setup, s, FragmentAt(call.text, call.data, setup.maxFragmentSize, next));
    }
  }

  lemma StepKeepsFrames(setup: Setup, s: State, a: Action)
    requires FramesInv(setup, s) && Enabled(setup, s, a)
    ensures FramesInv(setup, Next(setup, s, a))
  {
    hide QueueOk;
    hide WireBytes;
    hide TurnStep;
    hide HeadStep;
    hide BodyStep;
    hide ReleaseStep;
    hide ContinueStep;
    match a
    case Make(_) =>
    case MakeControl(ping, payload) =>
      SubmitKeepsFrames(setup, s, OutFrame(if ping then PING else PONG, payload, true));
    case TrustCodes =>
    case TakeTurn => TurnKeepsFrames(setup, s);
    case LockFrame(random) => LockKeepsFrames(setup, s, random);
    case WriteHead => HeadKeepsFrames(setup, s);
    case WriteBody => BodyKeepsFrames(setup, s);
    case ReleaseFrame => ReleaseKeepsFrames(setup, s);
    case Continue => ContinueKeepsFrames(setup, s);
  }

  // ---- every step keeps the message queue in order

  lemma SubmitWithin(s: State, f: OutFrame)
    ensures Where(Within, Submit(s, f).submitted) == Where(Within, s.submitted) + if Aside(f) then [] else [f]
    ensures Where(Aside, Submit(s, f).submitted) == Where(Aside, s.submitted) + if Aside(f) then [f] else []
    ensures Where(Within, JobFrames(Submit(s, f).jobs)) == Where(Within, JobFrames(s.jobs)) + if Aside(f) then [] else [f]
  {
    hide Where;
    WhereSnoc(Within, s.submitted, f);
    WhereSnoc(Aside, s.submitted, f);
    WhereSnoc(Within, JobFrames(s.jobs), f);
    assert JobFrames(Submit(s, f).jobs) == JobFrames(s.jobs) + [f];
  }

  lemma FragmentIsWithin(text: bool, data: seq<byte>, max: nat, from: nat)
    requires from <= |data|
    ensures Within(FragmentAt(text, data, max, from))
  {
  }

  lemma CloseIsWithin(setup: Setup, code: nat, reason: Option<string>)
    ensures Within(CloseFrame(setup, code, reason))
  {
  }

  lemma TurnsFacts(setup: Setup, s: State)
    requires setup.maxFragmentSize >= 1 && TurnsInv(setup, s)
    ensures s.done <= |s.calls| && (s.turns != [] ==> StageFits(s.turns[0]))
    ensures Where(Within, s.submitted) + Ahead(setup, s.turns) == AllFrames(setup, s.calls[..s.done]) + Total(setup, s.turns)
    ensures Where(Within, JobFrames(s.jobs)) == InQueue(setup, s.turns)
  {
  }

  lemma NextIsAhead(setup: Setup, call: Call, from: nat)
    requires setup.maxFragmentSize >= 1 && call.SendMessage? && from <= |call.data|
    ensures FragmentsFrom(call.text, call.data, setup.maxFragmentSize, from)
         == [FragmentAt(call.text, call.data, setup.maxFragmentSize, from)] + Behind(setup, call, from)
  {
    hide FragmentAt;
  }

  /** A new stage of the first call. */
  lemma StageKeepsTurns(setup: Setup, turns: seq<Turn>, stage: Stage, queue: seq<OutFrame>, queue': seq<OutFrame>,
                        submitted: seq<OutFrame>, submitted': seq<OutFrame>, calls: seq<Call>, done: nat)
    requires setup.maxFragmentSize >= 1 && TurnsOk(setup, turns, queue, submitted, calls, done) && turns != []
    requires StageFits(turns[0].(stage := stage))
    requires var turns' := [turns[0].(stage := stage)] + turns[1..];
             && Where(Within, submitted') + Ahead(setup, turns') == AllFrames(setup, calls[..done]) + Total(setup, turns')
             && Where(Within, queue') == InQueue(setup, turns')
    ensures TurnsOk(setup, [turns[0].(stage := stage)] + turns[1..], queue', submitted', calls, done)
  {
    hide Where;
    hide Ahead;
    hide Total;
    hide AllFrames;
    hide InQueue;
  }

  lemma WritingFacts(setup: Setup, turns: seq<Turn>, from: nat)
    requires setup.maxFragmentSize >= 1 && turns != [] && turns[0].call.SendMessage? && from <= |turns[0].call.data|
    requires StageFits(turns[0]) && !turns[0].stage.Writing?
    ensures var call, turns' := turns[0].call, [turns[0].(stage := Writing(from))] + turns[1..];
            && StageFits(turns'[0])
            && Ahead(setup, turns') == Behind(setup, call, from)
            && Total(setup, turns') == Total(setup, turns)
            && InQueue(setup, turns') == [FragmentAt(call.text, call.data, setup.maxFragmentSize, from)]
    ensures InQueue(setup, turns) == []
  {
    hide FramesOf;
    hide Behind;
    hide FragmentAt;
  }

  /** Passing on the next fragment takes it off those ahead. */
  lemma FragmentTurn(setup: Setup, turns: seq<Turn>, from: nat, queue: seq<OutFrame>, queue': seq<OutFrame>,
                     submitted: seq<OutFrame>, submitted': seq<OutFrame>, calls: seq<Call>, done: nat)
    requires setup.maxFragmentSize >= 1 && TurnsOk(setup, turns, queue, submitted, calls, done)
    requires turns != [] && turns[0].call.SendMessage? && from <= |turns[0].call.data| && !turns[0].stage.Writing?
    requires Ahead(setup, turns) == FragmentsFrom(turns[0].call.text, turns[0].call.data, setup.maxFragmentSize, from)
    requires var f := FragmentAt(turns[0].call.text, turns[0].call.data, setup.maxFragmentSize, from);
             Where(Within, submitted') == Where(Within, submitted) + [f] && Where(Within, queue') == Where(Within, queue) + [f]
    ensures TurnsOk(setup, [turns[0].(stage := Writing(from))] + turns[1..], queue', submitted', calls, done)
  {
    var call := turns[0].call;
    var f := FragmentAt(call.text, call.data, setup.maxFragmentSize, from);
    NextIsAhead(setup, call, from);
    Assoc(Where(Within, submitted), [f], Behind(setup, call, from));
    WritingFacts(setup, turns, from);
    assert [] + [f] == [f];
    hide FragmentsFrom;
    hide FragmentAt;
    hide Behind;
    hide Where;
    hide AllFrames;
    hide Ahead;
    hide Total;
    hide InQueue;
    StageKeepsTurns(setup, turns, Writing(from), queue, queue', submitted, submitted', calls, done);
  }

  lemma FragmentKeepsTurns(setup: Setup, s: State, from: nat)
    requires setup.maxFragmentSize >= 1 && TurnsInv(setup, s)
    requires s.turns != [] && s.turns[0].call.SendMessage? && from <= |s.turns[0].call.data| && !s.turns[0].stage.Writing?
    requires Ahead(setup, s.turns)
          == FragmentsFrom(s.turns[0].call.text, s.turns[0].call.data, setup.maxFragmentSize, from)
    ensures TurnsInv(setup, WriteFragment(setup, s, from))
  {
    var call := s.turns[0].call;
    var f := FragmentAt(call.text, call.data, setup.maxFragmentSize, from);
    FragmentIsWithin(call.text, call.data, setup.maxFragmentSize, from);
    SubmitWithin(s, f);
    FragmentTurn(setup, s.turns, from, JobFrames(s.jobs), JobFrames(Submit(s, f).jobs), s.submitted, s.submitted + [f],
                 s.calls, s.done);
    hide TurnsOk;
    hide Where;
    hide FragmentAt;
    hide FragmentsFrom;
    hide Ahead;
    hide Aside;
  }

  lemma CloseKeepsTurns(setup: Setup, s: State)
    requires setup.maxFragmentSize >= 1 && TurnsInv(setup, s)
    requires s.turns != [] && s.turns[0].stage.Waiting? && s.turns[0].call.CloseWith?
    ensures TurnsInv(setup, TurnStep(setup, s))
  {
    var call := s.turns[0].call;
    if CloseThrows(setup, s.checkCloseCode, call.code, call.reason) {
      RefusalKeepsTurns(setup, s);
    } else {
      CloseFrameKeepsTurns(setup, s);
    }
    hide TurnsInv;
    hide CloseThrows;
    hide CloseFrame;
  }

  lemma RefusalKeepsTurns(setup: Setup, s: State)
    requires setup.maxFragmentSize >= 1 && TurnsInv(setup, s)
    requires s.turns != [] && s.turns[0].stage.Waiting? && s.turns[0].call.CloseWith?
    ensures TurnsInv(setup, SetStage(s, Stage.Refused))
  {
    TurnsFacts(setup, s);
    hide TurnsOk;
    hide Where;
    hide AllFrames;
    hide CloseFrame;
    var sent := Where(Within, s.submitted);
    CancelRight(sent, AllFrames(setup, s.calls[..s.done]), FramesOf(setup, s.turns[0].call));
    assert sent + [] == sent;
    StageKeepsTurns(setup, s.turns, Stage.Refused, JobFrames(s.jobs), JobFrames(s.jobs), s.submitted, s.submitted,
                    s.calls, s.done);
  }

  lemma CloseFrameKeepsTurns(setup: Setup, s: State)
    requires setup.maxFragmentSize >= 1 && TurnsInv(setup, s)
    requires s.turns != [] && s.turns[0].stage.Waiting? && s.turns[0].call.CloseWith?
    ensures TurnsInv(setup, SetStage(Submit(s, CloseFrame(setup, s.turns[0].call.code, s.turns[0].call.reason)), Writing(0)))
  {
    var call := s.turns[0].call;
    var f := CloseFrame(setup, call.code, call.reason);
    TurnsFacts(setup, s);
    CloseIsWithin(setup, call.code, call.reason);
    SubmitWithin(s, f);
    hide TurnsOk;
    hide Where;
    hide AllFrames;
    hide CloseFrame;
    hide Aside;
    assert (Where(Within, s.submitted) + [f]) + [] == Where(Within, s.submitted) + [f];
    assert [] + [f] == [f];
    StageKeepsTurns(setup, s.turns, Writing(0), JobFrames(s.jobs), JobFrames(Submit(s, f).jobs), s.submitted,
                    s.submitted + [f], s.calls, s.done);
  }

  lemma Assoc<T>(a: seq<T>, b: seq<T>, c: seq<T>)
    ensures (a + b) + c == a + (b + c)
  {
  }

  lemma CancelRight<T>(a: seq<T>, b: seq<T>, c: seq<T>)
    requires a + c == b + c
    ensures a == b && b + [] == b
  {
    assert |a| == |b|;
    assert a == (a + c)[..|a|];
  }

  lemma AllFramesSnoc(setup: Setup, calls: seq<Call>, n: nat)
    requires setup.maxFragmentSize >= 1 && n < |calls|
    ensures AllFrames(setup, calls[..n + 1]) == AllFrames(setup, calls[..n]) + FramesOf(setup, calls[n])
  {
    assert calls[..n + 1][..n] == calls[..n];
  }

  /** The last fragment written, the next call is served. */
  lemma UnlockKeepsTurns(setup: Setup, s: State)
    requires setup.maxFragmentSize >= 1 && TurnsInv(setup, s) && s.turns != [] && s.turns[0].stage.Written? && s.turns[0].call.SendMessage?
    requires s.turns[0].stage.from + setup.maxFragmentSize >= |s.turns[0].call.data|
    ensures TurnsInv(setup, ContinueStep(setup, s))
  {
    TurnsFacts(setup, s);
    AllFramesSnoc(setup, s.calls, s.done);
    assert s.calls[s.done] == s.turns[0].call;
    assert Where(Within, s.submitted) + [] == Where(Within, s.submitted);
    ShiftedTurns(setup, s.turns, JobFrames(s.jobs), s.submitted, s.calls, s.done);
  }

  lemma ShiftedTurns(setup: Setup, turns: seq<Turn>, queue: seq<OutFrame>, submitted: seq<OutFrame>, calls: seq<Call>, done: nat)
    requires setup.maxFragmentSize >= 1 && TurnsOk(setup, turns, queue, submitted, calls, done)
    requires turns != [] && turns[0].call.SendMessage? && turns[0].stage.Written?
    requires Where(Within, submitted) == AllFrames(setup, calls[..done + 1])
    ensures TurnsOk(setup, turns[1..], queue, submitted, calls, done + 1)
  {
    hide Where;
    hide AllFrames;
    hide FramesOf;
    var next := turns[1..];
    forall i | 0 <= i < |next|
      ensures next[i].call == calls[done + 1 + i] && next[i].stage.Waiting?
    {
      assert next[i] == turns[i + 1];
    }
    assert AllFrames(setup, calls[..done + 1]) + [] == AllFrames(setup, calls[..done + 1]);
  }

  /** Calls behind the first do not matter yet. */
  lemma HeadDecides(setup: Setup, turns: seq<Turn>, later: seq<Turn>)
    requires setup.maxFragmentSize >= 1 && turns != [] && StageFits(turns[0])
    ensures Ahead(setup, turns + later) == Ahead(setup, turns)
    ensures Total(setup, turns + later) == Total(setup, turns)
    ensures InQueue(setup, turns + later) == InQueue(setup, turns)
  {
    hide FramesOf;
    hide Behind;
  }

  lemma LaterTurn(setup: Setup, turns: seq<Turn>, queue: seq<OutFrame>, submitted: seq<OutFrame>,
                  calls: seq<Call>, done: nat, call: Call)
    requires setup.maxFragmentSize >= 1 && TurnsOk(setup, turns, queue, submitted, calls, done) && turns != []
    ensures TurnsOk(setup, turns + [Turn(call, Waiting)], queue, submitted, calls + [call], done)
  {
    HeadDecides(setup, turns, [Turn(call, Waiting)]);
    assert (calls + [call])[..done] == calls[..done];
    hide Where;
    hide AllFrames;
    hide Ahead;
    hide Total;
    hide InQueue;
  }

  lemma FirstTurn(setup: Setup, queue: seq<OutFrame>, submitted: seq<OutFrame>, calls: seq<Call>, done: nat, call: Call)
    requires setup.maxFragmentSize >= 1 && TurnsOk(setup, [], queue, submitted, calls, done)
    ensures TurnsOk(setup, [Turn(call, Waiting)], queue, submitted, calls + [call], done)
  {
    hide Where;
    hide AllFrames;
    hide FramesOf;
    assert Where(Within, submitted) + [] == Where(Within, submitted);
    assert AllFrames(setup, calls[..done]) + [] == AllFrames(setup, calls[..done]);
    assert (calls + [call])[..done] == calls[..done];
  }

  lemma MakeKeepsTurns(setup: Setup, s: State, call: Call)
    requires setup.maxFragmentSize >= 1 && TurnsInv(setup, s)
    ensures TurnsInv(setup, MakeStep(s, call))
  {
    hide TurnsOk;
    if s.turns == [] {
      FirstTurn(setup, JobFrames(s.jobs), s.submitted, s.calls, s.done, call);
      assert s.turns + [Turn(call, Waiting)] == [Turn(call, Waiting)];
    } else {
      LaterTurn(setup, s.turns, JobFrames(s.jobs), s.submitted, s.calls, s.done, call);
    }
  }

  lemma ControlKeepsTurns(setup: Setup, s: State, ping: bool, payload: seq<byte>)
    requires setup.maxFragmentSize >= 1 && TurnsInv(setup, s)
    ensures TurnsInv(setup, ControlStep(s, ping, payload))
  {
    var f := OutFrame(if ping then PING else PONG, payload, true);
    SubmitWithin(s, f);
    hide Where;
    hide AllFrames;
    hide Ahead;
    hide Total;
    hide InQueue;
    assert Where(Within, s.submitted) + [] == Where(Within, s.submitted);
    assert Where(Within, JobFrames(s.jobs)) + [] == Where(Within, JobFrames(s.jobs));
  }

  /** The first frame of a queue leaves it. */
  lemma WhereFirst(keep: OutFrame -> bool, fs: seq<OutFrame>)
    requires fs != []
    ensures !keep(fs[0]) ==> Where(keep, fs[1..]) == Where(keep, fs)
    ensures keep(fs[0]) && |Where(keep, fs)| <= 1 ==> Where(keep, fs[1..]) == []
  {
  }

  lemma ReleaseKeepsTurns(setup: Setup, s: State)
    requires setup.maxFragmentSize >= 1 && TurnsInv(setup, s) && s.jobs != [] && s.jobs[0].progress.Finished?
    ensures TurnsInv(setup, ReleaseStep(s))
  {
    TurnsFacts(setup, s);
    var f := s.jobs[0].frame;
    assert JobFrames(s.jobs)[0] == f && JobFrames(s.jobs)[1..] == JobFrames(s.jobs[1..]);
    WhereFirst(Within, JobFrames(s.jobs));
    hide AllFrames;
    hide FramesOf;
    hide FragmentsFrom;
    hide Where;
    hide Aside;
    hide FragmentAt;
    hide CloseFrame;
    if Aside(f) {
      QueueKeepsTurns(setup, s.turns, JobFrames(s.jobs), JobFrames(s.jobs[1..]), s.submitted, s.calls, s.done);
      hide TurnsOk;
    } else {
      hide TurnsOk;
      assert |InQueue(setup, s.turns)| == 1;
      var t := ReleaseStep(s);
      StageKeepsTurns(setup, s.turns, t.turns[0].stage, JobFrames(s.jobs), JobFrames(t.jobs), s.submitted, t.submitted,
                      s.calls, s.done);
    }
  }

  lemma QueueKeepsTurns(setup: Setup, turns: seq<Turn>, queue: seq<OutFrame>, queue': seq<OutFrame>,
                        submitted: seq<OutFrame>, calls: seq<Call>, done: nat)
    requires setup.maxFragmentSize >= 1 && TurnsOk(setup, turns, queue, submitted, calls, done)
    requires Where(Within, queue') == Where(Within, queue)
    ensures TurnsOk(setup, turns, queue', submitted, calls, done)
  {
    hide Where;
  }

  lemma SameFrames(s: State, p: Progress)
    requires s.jobs != []
    ensures JobFrames(SetProgress(s, p).jobs) == JobFrames(s.jobs)
  {
  }

  lemma TakeTurnKeepsTurns(setup: Setup, s: State)
    requires setup.maxFragmentSize >= 1 && TurnsInv(setup, s) && s.turns != [] && s.turns[0].stage.Waiting? && s.turns[0].call.SendMessage?
    ensures TurnsInv(setup, TurnStep(setup, s))
  {
    hide TurnsInv;
    hide FragmentsFrom;
    hide FragmentAt;
    FragmentKeepsTurns(setup, s, 0);
  }

  lemma HeadFits(setup: Setup, s: State)
    requires setup.maxFragmentSize >= 1 && TurnsInv(setup, s) && s.turns != []
    ensures StageFits(s.turns[0])
  {
  }

  lemma AheadWhenWritten(setup: Setup, turns: seq<Turn>)
    requires setup.maxFragmentSize >= 1 && turns != [] && StageFits(turns[0]) && turns[0].stage.Written?
    requires turns[0].stage.from + setup.maxFragmentSize < |turns[0].call.data|
    ensures Ahead(setup, turns) == FragmentsFrom(turns[0].call.text, turns[0].call.data, setup.maxFragmentSize,
                                                 turns[0].stage.from + setup.maxFragmentSize)
  {
    hide FragmentsFrom;
  }

  lemma ContinueWrites(setup: Setup, s: State)
    requires s.turns != [] && s.turns[0].stage.Written? && s.turns[0].call.SendMessage?
    requires s.turns[0].stage.from + setup.maxFragmentSize < |s.turns[0].call.data|
    ensures ContinueStep(setup, s) == WriteFragment(setup, s, s.turns[0].stage.from + setup.maxFragmentSize)
  {
    hide WriteFragment;
  }

  lemma FragmentFollows(setup: Setup, s: State)
    requires setup.maxFragmentSize >= 1 && TurnsInv(setup, s)
    requires s.turns != [] && s.turns[0].stage.Written? && s.turns[0].call.SendMessage?
    requires s.turns[0].stage.from + setup.maxFragmentSize < |s.turns[0].call.data|
    ensures TurnsInv(setup, WriteFragment(setup, s, s.turns[0].stage.from + setup.maxFragmentSize))
  {
    hide Ahead;
    hide FragmentsFrom;
    hide TurnsInv;
    hide WriteFragment;
    HeadFits(setup, s);
    AheadWhenWritten(setup, s.turns);
    FragmentKeepsTurns(setup, s, s.turns[0].stage.from + setup.maxFragmentSize);
  }

  lemma ContinueKeepsTurns(setup: Setup, s: State)
    requires setup.maxFragmentSize >= 1 && TurnsInv(setup, s)
    requires s.turns != [] && s.turns[0].stage.Written? && s.turns[0].call.SendMessage?
    ensures TurnsInv(setup, ContinueStep(setup, s))
  {
    hide TurnsInv;
    hide WriteFragment;
    hide ContinueStep;
    if s.turns[0].stage.from + setup.maxFragmentSize < |s.turns[0].call.data| {
      FragmentFollows(setup, s);
      ContinueWrites(setup, s);
    } else {
      UnlockKeepsTurns(setup, s);
    }
  }

  lemma StepKeepsTurns(setup: Setup, s: State, a: Action)
    requires setup.maxFragmentSize >= 1 && TurnsInv(setup, s) && Enabled(setup, s, a)
    ensures TurnsInv(setup, Next(setup, s, a))
  {
    hide TurnsOk;
    hide TurnStep;
    hide ReleaseStep;
    hide ContinueStep;
    match a
    case Make(call) => MakeKeepsTurns(setup, s, call);
    case MakeControl(ping, payload) =>
      ControlKeepsTurns(setup, s, ping, payload);
    case TrustCodes =>
    case TakeTurn =>
      if s.turns[0].call.SendMessage? {
        TakeTurnKeepsTurns(setup, s);
      } else {
        CloseKeepsTurns(setup, s);
      }
    case LockFrame(random) =>
      SameFrames(s, Locked(MaskFor(setup.isClient, setup.zeroMasking, random)));
    case WriteHead =>
      SameFrames(s, HeadWritten(s.jobs[0].progress.mask));
      SameFrames(s, Finished);
    case WriteBody =>
      SameFrames(s, Finished);
    case ReleaseFrame => ReleaseKeepsTurns(setup, s);
    case Continue => ContinueKeepsTurns(setup, s);
  }

  // ---- every step keeps the counts

  ghost predicate CountsInv(s: State) {
    Where(Aside, s.submitted) == s.controls && s.bufferedAmount == TotalSize(s.turns)
  }

  lemma {:induction false} TotalSizeSnoc(turns: seq<Turn>, t: Turn)
    ensures TotalSize(turns + [t]) == TotalSize(turns) + Size(t.call)
  {
    if turns == [] {
      assert [] + [t] == [t];
    } else {
      assert (turns + [t])[1..] == turns[1..] + [t];
      TotalSizeSnoc(turns[1..], t);
    }
  }

  lemma StageKeepsSize(turns: seq<Turn>, stage: Stage)
    requires turns != []
    ensures TotalSize([turns[0].(stage := stage)] + turns[1..]) == TotalSize(turns)
  {
    assert ([turns[0].(stage := stage)] + turns[1..])[1..] == turns[1..];
  }

  lemma WithinKeepsAside(submitted: seq<OutFrame>, f: OutFrame)
    requires Within(f)
    ensures Where(Aside, submitted + [f]) == Where(Aside, submitted)
  {
    WhereSnoc(Aside, submitted, f);
    hide Where;
    assert Where(Aside, submitted) + [] == Where(Aside, submitted);
  }

  lemma WriteKeepsCounts(setup: Setup, s: State, from: nat)
    requires CountsInv(s) && s.turns != [] && s.turns[0].call.SendMessage? && from <= |s.turns[0].call.data|
    ensures CountsInv(WriteFragment(setup, s, from))
  {
    var call := s.turns[0].call;
    FragmentIsWithin(call.text, call.data, setup.maxFragmentSize, from);
    WithinKeepsAside(s.submitted, FragmentAt(call.text, call.data, setup.maxFragmentSize, from));
    StageKeepsSize(s.turns, Writing(from));
    hide Where;
    hide FragmentAt;
    hide TotalSize;
  }

  lemma TurnKeepsCounts(setup: Setup, s: State)
    requires CountsInv(s) && s.turns != []
    ensures CountsInv(TurnStep(setup, s))
  {
    hide Where;
    hide FragmentAt;
    hide TotalSize;
    hide CloseThrows;
    match s.turns[0].call
    case SendMessage(_, _) => WriteKeepsCounts(setup, s, 0);
    case CloseWith(code, reason) =>
      CloseIsWithin(setup, code, reason);
      WithinKeepsAside(s.submitted, CloseFrame(setup, code, reason));
      StageKeepsSize(s.turns, Stage.Refused);
      StageKeepsSize(s.turns, Writing(0));
      hide CloseFrame;
  }

  lemma ReleaseKeepsCounts(s: State)
    requires CountsInv(s) && s.jobs != []
    ensures CountsInv(ReleaseStep(s))
  {
    hide Where;
    if s.turns != [] && s.turns[0].stage.Writing? {
      StageKeepsSize(s.turns, Closed);
      StageKeepsSize(s.turns, Written(s.turns[0].stage.from));
    }
    hide TotalSize;
  }

  lemma StepKeepsCounts(setup: Setup, s: State, a: Action)
    requires CountsInv(s) && Enabled(setup, s, a)
    ensures CountsInv(Next(setup, s, a))
  {
    hide Where;
    match a
    case Make(call) =>
      TotalSizeSnoc(s.turns, Turn(call, Waiting));
    case MakeControl(ping, payload) =>
      var f := OutFrame(if ping then PING else PONG, payload, true);
      WhereSnoc(Aside, s.submitted, f);
    case TrustCodes =>
    case TakeTurn => TurnKeepsCounts(setup, s);
    case LockFrame(_) =>
    case WriteHead =>
    case WriteBody =>
    case ReleaseFrame => ReleaseKeepsCounts(s);
    case Continue =>
      var next := s.turns[0].stage.from + setup.maxFragmentSize;
      if next < |s.turns[0].call.data| {
        WriteKeepsCounts(setup, s, next);
      }
  }

  // ---- what every run keeps

  ghost predicate Inv(setup: Setup, s: State)
    requires setup.maxFragmentSize >= 1
  {
    FramesInv(setup, s) && TurnsInv(setup, s) && CountsInv(s)
  }

  lemma {:induction false} RunKeepsInv(setup: Setup, s: State, actions: seq<Action>)
    requires setup.maxFragmentSize >= 1 && Inv(setup, s) && Possible(setup, s, actions)
    ensures Inv(setup, After(setup, s, actions))
    decreases |actions|
  {
    hide FramesInv;
    hide TurnsInv;
    hide CountsInv;
    hide Enabled;
    hide Next;
    if actions != [] {
      StepKeepsFrames(setup, s, actions[0]);
      StepKeepsTurns(setup, s, actions[0]);
      StepKeepsCounts(setup, s, actions[0]);
      RunKeepsInv(setup, Next(setup, s, actions[0]), actions[1..]);
    }
  }

  /** A state some run leads to. */
  ghost predicate Reachable(setup: Setup, s: State) {
    exists actions :: Possible(setup, INITIAL, actions) && s == After(setup, INITIAL, actions)
  }

  lemma ReachableInv(setup: Setup, s: State)
    requires setup.maxFragmentSize >= 1 && Reachable(setup, s)
    ensures Inv(setup, s)
  {
    var actions :| Possible(setup, INITIAL, actions) && s == After(setup, INITIAL, actions);
    RunKeepsInv(setup, INITIAL, actions);
  }
}
