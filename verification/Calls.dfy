/** What the callers of a run have asked for, told from its actions alone, and that the writer's records agree with it. */
module Calls {
  import opened Bytes
  import opened Frames
  import opened Writer
  import opened Interleaving

  /** The `send` and `close` calls, in order. */
  function MessageCalls(actions: seq<Action>): seq<Call> {
    if actions == [] then [] else (if actions[0].Make? then [actions[0].call] else []) + MessageCalls(actions[1..])
  }

  /** The `ping` and `pong` calls, in order, as the frames they ask for. */
  function ControlCalls(actions: seq<Action>): seq<OutFrame> {
    if actions == [] then []
    else
      (match actions[0]
       case MakeControl(true, payload) => [OutFrame(PING, payload, true)]
       case MakeControl(false, payload) => [OutFrame(PONG, payload, true)]
       case _ => [])
      + ControlCalls(actions[1..])
  }

  /** The masks of the frames, one for each turn of the frame mutex: none by a server, 0 with `zeroMasking`. */
  function MasksDrawn(setup: Setup, actions: seq<Action>): seq<Option<bv32>> {
    if actions == [] then []
    else
      (match actions[0]
       case LockFrame(random) =>
         [if !setup.isClient then None else if setup.zeroMasking then Some(0) else Some(random)]
       case _ => [])
      + MasksDrawn(setup, actions[1..])
  }

  predicate Trusts(actions: seq<Action>) {
    exists i :: 0 <= i < |actions| && actions[i].TrustCodes?
  }

  // ---- closes

  /** What is sent of a reason: all of up to 123 characters, else the first 123. */
  function ReasonSent(setup: Setup, reason: Option<string>): seq<byte> {
    match reason
    case None => []
    case Some(text) => if |text| <= 123 then setup.encode(text) else setup.encode(text[..123])
  }

  /** The payload of a Close frame: two bytes of code, then that. */
  lemma ClosePayloadIs(setup: Setup, code: nat, reason: Option<string>)
    ensures ClosePayload(setup, code, reason) == EncodeBE(code, 2) + ReasonSent(setup, reason)
  {
    hide EncodeBE;
  }

  /** `close` throws at a code its side may not send, unless codes are trusted, and at a reason of more than 123 bytes. */
  lemma ThrowsExactly(setup: Setup, checking: bool, code: nat, reason: Option<string>)
    ensures CloseThrows(setup, checking, code, reason)
       <==> || |ReasonSent(setup, reason)| > 123
            || (checking && !(3000 <= code <= 4999)
                && if setup.isClient then code != 1000
                   else !(1000 <= code <= 1003 || 1007 <= code <= 1009 || 1011 <= code <= 1014))
  {
    ClosePayloadIs(setup, code, reason);
    assert reason.None? ==> ReasonSent(setup, reason) == [];
    hide ClosePayload;
    hide ReasonSent;
  }

  /** Calls can be made at any time, whatever goes on: messages and control payloads of a size that can be announced, codes
      that fit two bytes. */
  lemma CallsArePossible(setup: Setup, s: State, text: bool, data: seq<byte>, code: nat, reason: Option<string>, ping: bool)
    ensures Enabled(setup, s, Make(SendMessage(text, data))) <==> |data| <= 9007199254740991
    ensures Enabled(setup, s, MakeControl(ping, data)) <==> |data| <= 9007199254740991
    ensures Enabled(setup, s, Make(CloseWith(code, reason))) <==> code <= 65535
    ensures Enabled(setup, s, TrustCodes)
  {
  }

  // ---- the masks in use

  function LogMasks(log: seq<Sent>): (ms: seq<Option<bv32>>)
    ensures |ms| == |log|
  {
    seq(|log|, i requires 0 <= i < |log| => log[i].mask)
  }

  /** The mask of the frame being written. */
  function MaskHeld(jobs: seq<Job>): seq<Option<bv32>> {
    if jobs != [] && (jobs[0].progress.Locked? || jobs[0].progress.HeadWritten?) then [jobs[0].progress.mask] else []
  }

  function MasksUsed(s: State): seq<Option<bv32>> {
    LogMasks(s.log) + MaskHeld(s.jobs)
  }

  lemma LogUses(s: State, mask: Option<bv32>)
    requires s.jobs != []
    ensures MasksUsed(Log(s, mask)) == LogMasks(s.log) + [mask]
  {
    assert LogMasks(Log(s, mask).log) == LogMasks(s.log) + [mask];
  }

  /** Only the frame in front holds a mask. */
  predicate OthersQueued(jobs: seq<Job>) {
    forall i :: 0 < i < |jobs| ==> jobs[i].progress.Queued?
  }

  lemma SubmitUses(s: State, f: OutFrame)
    ensures MasksUsed(Submit(s, f)) == MasksUsed(s)
  {
  }

  lemma TurnUses(setup: Setup, s: State)
    requires s.turns != []
    ensures MasksUsed(TurnStep(setup, s)) == MasksUsed(s)
  {
    hide FragmentAt;
    hide CloseFrame;
    hide CloseThrows;
    match s.turns[0].call
    case SendMessage(text, data) => SubmitUses(s, FragmentAt(text, data, setup.maxFragmentSize, 0));
    case CloseWith(code, reason) => SubmitUses(s, CloseFrame(setup, code, reason));
  }

  lemma ContinueUses(setup: Setup, s: State)
    requires s.turns != [] && s.turns[0].stage.Written? && s.turns[0].call.SendMessage?
    ensures MasksUsed(ContinueStep(setup, s)) == MasksUsed(s)
  {
    hide FragmentAt;
    var call, next := s.turns[0].call, s.turns[0].stage.from + setup.maxFragmentSize;
    if next < |call.data| {
      SubmitUses(s, FragmentAt(call.text, call.data, setup.maxFragmentSize, next));
    }
  }

  lemma WriteUses(s: State)
    requires s.jobs != []
    ensures s.jobs[0].progress.Locked? ==> MasksUsed(HeadStep(s)) == MasksUsed(s)
    ensures s.jobs[0].progress.HeadWritten? ==> MasksUsed(BodyStep(s)) == MasksUsed(s)
  {
    hide HeadBytes;
    hide BodyBytes;
    if s.jobs[0].progress.Locked? || s.jobs[0].progress.HeadWritten? {
      LogUses(s, s.jobs[0].progress.mask);
    }
  }

  lemma ReleaseUses(s: State)
    requires s.jobs != [] && s.jobs[0].progress.Finished? && OthersQueued(s.jobs)
    ensures MasksUsed(ReleaseStep(s)) == MasksUsed(s)
  {
  }

  lemma LockUses(s: State, mask: Option<bv32>)
    requires s.jobs != [] && s.jobs[0].progress.Queued?
    ensures MasksUsed(SetProgress(s, Locked(mask))) == MasksUsed(s) + [mask]
  {
  }

  lemma StepUses(setup: Setup, s: State, a: Action)
    requires OthersQueued(s.jobs) && Enabled(setup, s, a)
    ensures MasksUsed(Next(setup, s, a)) == MasksUsed(s) + MasksDrawn(setup, [a])
  {
    assert [a][1..] == [];
    assert MasksUsed(s) + [] == MasksUsed(s);
    hide TurnStep;
    hide HeadStep;
    hide BodyStep;
    hide ReleaseStep;
    hide ContinueStep;
    match a
    case Make(_) =>
    case MakeControl(ping, payload) => SubmitUses(s, OutFrame(if ping then PING else PONG, payload, true));
    case TrustCodes =>
    case TakeTurn => TurnUses(setup, s);
    case LockFrame(random) => LockUses(s, MaskFor(setup.isClient, setup.zeroMasking, random));
    case WriteHead => WriteUses(s);
    case WriteBody => WriteUses(s);
    case ReleaseFrame => ReleaseUses(s);
    case Continue => ContinueUses(setup, s);
  }

  // ---- the calls

  lemma StepRecords(setup: Setup, s: State, a: Action)
    requires Enabled(setup, s, a)
    ensures var t := Next(setup, s, a);
            && t.calls == s.calls + MessageCalls([a])
            && t.controls == s.controls + ControlCalls([a])
            && t.checkCloseCode == (s.checkCloseCode && !a.TrustCodes?)
  {
    hide FragmentAt;
    hide CloseFrame;
    hide CloseThrows;
    hide HeadBytes;
    hide BodyBytes;
    assert [a][1..] == [];
    assert s.calls + [] == s.calls && s.controls + [] == s.controls;
  }

  lemma CallsCons(a: Action, rest: seq<Action>)
    ensures MessageCalls([a] + rest) == MessageCalls([a]) + MessageCalls(rest)
  {
    assert ([a] + rest)[1..] == rest && [a][1..] == [];
    var first := if a.Make? then [a.call] else [];
    assert MessageCalls([a]) == first + [] == first;
  }

  lemma ControlsCons(a: Action, rest: seq<Action>)
    ensures ControlCalls([a] + rest) == ControlCalls([a]) + ControlCalls(rest)
  {
    assert ([a] + rest)[1..] == rest && [a][1..] == [];
    var first := if a.MakeControl? then [OutFrame(if a.ping then PING else PONG, a.payload, true)] else [];
    assert ControlCalls([a]) == first + [] == first;
  }

  lemma MasksCons(setup: Setup, a: Action, rest: seq<Action>)
    ensures MasksDrawn(setup, [a] + rest) == MasksDrawn(setup, [a]) + MasksDrawn(setup, rest)
  {
    assert ([a] + rest)[1..] == rest && [a][1..] == [];
    if !a.LockFrame? {
      assert MasksDrawn(setup, [a]) == [] + [] == [];
    }
  }

  lemma TrustsCons(a: Action, rest: seq<Action>)
    ensures Trusts([a] + rest) <==> a.TrustCodes? || Trusts(rest)
  {
    if a.TrustCodes? {
      assert ([a] + rest)[0].TrustCodes?;
    } else if Trusts(rest) {
      var i :| 0 <= i < |rest| && rest[i].TrustCodes?;
      assert ([a] + rest)[i + 1].TrustCodes?;
    }
  }

  lemma QueuedBehind(setup: Setup, s: State)
    requires FramesInv(setup, s)
    ensures OthersQueued(s.jobs)
  {
    hide WireBytes;
    hide LogFrames;
  }

  lemma {:induction false} RunRecordsFrom(setup: Setup, s: State, actions: seq<Action>)
    requires FramesInv(setup, s) && Possible(setup, s, actions)
    ensures var t := After(setup, s, actions);
            && t.calls == s.calls + MessageCalls(actions)
            && t.controls == s.controls + ControlCalls(actions)
            && t.checkCloseCode == (s.checkCloseCode && !Trusts(actions))
            && MasksUsed(t) == MasksUsed(s) + MasksDrawn(setup, actions)
    decreases |actions|
  {
    hide FramesInv;
    hide Enabled;
    hide Next;
    hide MasksUsed;
    if actions == [] {
      assert s.calls + [] == s.calls && s.controls + [] == s.controls && MasksUsed(s) + [] == MasksUsed(s);
    } else {
      var a, rest := actions[0], actions[1..];
      assert actions == [a] + rest;
      QueuedBehind(setup, s);
      StepKeepsFrames(setup, s, a);
      StepRecords(setup, s, a);
      StepUses(setup, s, a);
      RunRecordsFrom(setup, Next(setup, s, a), rest);
      hide MessageCalls;
      hide ControlCalls;
      hide MasksDrawn;
      hide Trusts;
      CallsCons(a, rest);
      ControlsCons(a, rest);
      MasksCons(setup, a, rest);
      TrustsCons(a, rest);
      Assoc(s.calls, MessageCalls([a]), MessageCalls(rest));
      Assoc(s.controls, ControlCalls([a]), ControlCalls(rest));
      Assoc(MasksUsed(s), MasksDrawn(setup, [a]), MasksDrawn(setup, rest));
    }
  }

  /** In every run the writer has on record exactly the calls made, a ping for a ping and a pong for a pong; it checks close
      codes until it is told not to; and each frame takes the mask drawn when its turn came. */
  lemma RunRecords(setup: Setup, actions: seq<Action>)
    requires Possible(setup, INITIAL, actions)
    ensures var s := After(setup, INITIAL, actions);
            && s.calls == MessageCalls(actions)
            && s.controls == ControlCalls(actions)
            && s.checkCloseCode == !Trusts(actions)
            && LogMasks(s.log) + MaskHeld(s.jobs) == MasksDrawn(setup, actions)
  {
    RunRecordsFrom(setup, INITIAL, actions);
    assert [] + MessageCalls(actions) == MessageCalls(actions) && [] + ControlCalls(actions) == ControlCalls(actions);
    assert [] + MasksDrawn(setup, actions) == MasksDrawn(setup, actions);
    hide Possible;
    hide After;
  }
}
