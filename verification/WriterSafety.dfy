/** What holds of the writer in every state any interleaving of its callers can reach. */
module WriterSafety {
  import opened Bytes
  import opened Frames
  import opened Writer
  import opened Interleaving
  import opened Calls

  /** The wire is a sequence of whole frames, then at most the header of one more. */
  lemma WireIsWholeFrames(setup: Setup, s: State)
    requires setup.maxFragmentSize >= 1 && Reachable(setup, s)
    ensures s.wire == WireBytes(s.log)
         || exists next: Sent :: next.frame.payload != [] && MaskFits(setup, next.mask) && s.wire == WireBytes(s.log) + HeadBytes(next)
  {
    ReachableInv(setup, s);
    hide WireBytes;
    hide HeadBytes;
    if PartialBytes(s.jobs) == [] {
      assert WireBytes(s.log) + [] == WireBytes(s.log);
    } else {
      var next := Sent(s.jobs[0].frame, s.jobs[0].progress.mask);
      assert next.frame.payload != [] && s.wire == WireBytes(s.log) + HeadBytes(next);
    }
  }

  lemma {:induction false} WherePrefix(keep: OutFrame -> bool, a: seq<OutFrame>, b: seq<OutFrame>)
    requires a <= b
    ensures Where(keep, a) <= Where(keep, b)
  {
    assert b == a + b[|a|..];
    WhereConcat(keep, a, b[|a|..]);
  }

  lemma {:induction false} WhereMember(keep: OutFrame -> bool, fs: seq<OutFrame>, i: nat)
    requires i < |fs| && keep(fs[i])
    ensures fs[i] in Where(keep, fs)
  {
    if i > 0 {
      WhereMember(keep, fs[1..], i - 1);
    }
  }

  lemma WrittenIsPrefix(setup: Setup, s: State)
    requires setup.maxFragmentSize >= 1 && FramesInv(setup, s)
    ensures LogFrames(s.log) <= s.submitted
    ensures s.jobs == [] ==> LogFrames(s.log) == s.submitted
  {
    hide LogFrames;
    hide WireBytes;
    assert s.jobs == [] ==> Unwritten(s.jobs) == [];
  }

  /** How many `send` and `close` calls have been served, the one in progress included. */
  function Served(s: State): nat {
    s.done + if s.turns == [] || s.turns[0].stage.Refused? || s.turns[0].stage.Waiting? then 0 else 1
  }

  lemma ServedFrames(setup: Setup, s: State)
    requires setup.maxFragmentSize >= 1 && TurnsInv(setup, s)
    ensures Served(s) <= |s.calls|
    ensures forall i :: 0 <= i < s.done ==> s.calls[i].SendMessage?
    ensures Served(s) > s.done ==> s.turns[0].call == s.calls[s.done]
    ensures Where(Within, s.submitted) <= AllFrames(setup, s.calls[..Served(s)])
    ensures s.turns == [] ==> Where(Within, s.submitted) == AllFrames(setup, s.calls)
  {
    hide Where;
    hide FramesOf;
    hide AllFrames;
    var before := AllFrames(setup, s.calls[..s.done]);
    assert before + [] == before && Where(Within, s.submitted) + [] == Where(Within, s.submitted);
    if s.turns == [] {
      assert s.calls[..s.done] == s.calls;
    } else if s.turns[0].stage.Waiting? {
      CancelRight(Where(Within, s.submitted), before, FramesOf(setup, s.turns[0].call));
    } else if !s.turns[0].stage.Refused? {
      AllFramesSnoc(setup, s.calls, s.done);
    }
  }

  /** The frames of the served calls: messages, then at most one Close. */
  lemma ServedSplit(setup: Setup, s: State)
    requires setup.maxFragmentSize >= 1 && s.done <= Served(s) <= |s.calls|
    ensures AllFrames(setup, s.calls[..Served(s)])
         == AllFrames(setup, s.calls[..s.done]) + if Served(s) > s.done then FramesOf(setup, s.calls[s.done]) else []
  {
    hide FramesOf;
    if Served(s) > s.done {
      AllFramesSnoc(setup, s.calls, s.done);
    } else {
      assert AllFrames(setup, s.calls[..s.done]) + [] == AllFrames(setup, s.calls[..s.done]);
    }
  }

  lemma UnwrittenIsQueued(jobs: seq<Job>)
    ensures |Where(Within, Unwritten(jobs))| <= |Where(Within, JobFrames(jobs))|
  {
    if jobs != [] {
      assert JobFrames(jobs)[1..] == JobFrames(jobs[1..]);
      WhereFirst(Within, JobFrames(jobs));
    }
  }

  /** While the first call has no frame in the frame queue, all message frames passed on are written. */
  lemma QueueClear(setup: Setup, s: State)
    requires setup.maxFragmentSize >= 1 && FramesInv(setup, s) && TurnsInv(setup, s)
    requires s.turns == [] || !s.turns[0].stage.Writing?
    ensures Where(Within, LogFrames(s.log)) == Where(Within, s.submitted)
  {
    assert Where(Within, JobFrames(s.jobs)) == [];
    UnwrittenIsQueued(s.jobs);
    WhereConcat(Within, LogFrames(s.log), Unwritten(s.jobs));
    assert Where(Within, LogFrames(s.log)) + [] == Where(Within, LogFrames(s.log));
    hide TurnsInv;
    hide Where;
    hide WireBytes;
    hide LogFrames;
  }

  lemma {:induction false} LaterIsFewer(text: bool, data: seq<byte>, max: nat, from: nat, later: nat)
    requires max >= 1 && from <= later <= |data|
    ensures |FragmentsFrom(text, data, max, later)| <= |FragmentsFrom(text, data, max, from)|
    decreases |data| - later
  {
    hide FragmentAt;
    if later + max < |data| {
      LaterIsFewer(text, data, max, from + max, later + max);
    }
  }

  /** The frame in progress and those ahead are among the frames of the first call. */
  lemma AheadIsFewer(setup: Setup, turns: seq<Turn>)
    requires setup.maxFragmentSize >= 1 && (turns != [] ==> StageFits(turns[0]))
    ensures |InQueue(setup, turns)| + |Ahead(setup, turns)| <= |Total(setup, turns)|
  {
    hide FragmentAt;
    hide CloseFrame;
    if turns != [] {
      var t := turns[0];
      if (t.stage.Writing? || t.stage.Written?) && t.call.SendMessage? {
        BehindIsFewer(setup, t.call, t.stage.from);
      }
    }
  }

  lemma BehindIsFewer(setup: Setup, call: Call, from: nat)
    requires setup.maxFragmentSize >= 1 && call.SendMessage? && from <= |call.data|
    ensures |Behind(setup, call, from)| < |FramesOf(setup, call)|
  {
    hide FragmentAt;
    LaterIsFewer(call.text, call.data, setup.maxFragmentSize, 0, from);
  }

  lemma ShorterPrefix<T>(a: seq<T>, b: seq<T>, c: seq<T>, d: seq<T>)
    requires a + b == c + d && |c| <= |a|
    ensures c <= a
  {
    assert c == (a + b)[..|c|] == a[..|c|];
  }

  /** All frames of the finished calls are written. */
  lemma FinishedAreWritten(setup: Setup, s: State)
    requires setup.maxFragmentSize >= 1 && Reachable(setup, s)
    ensures s.done <= |s.calls|
    ensures AllFrames(setup, s.calls[..s.done]) <= Where(Within, LogFrames(s.log))
  {
    ReachableInv(setup, s);
    TurnsFacts(setup, s);
    WhereConcat(Within, LogFrames(s.log), Unwritten(s.jobs));
    UnwrittenIsQueued(s.jobs);
    AheadIsFewer(setup, s.turns);
    hide Ahead;
    hide Total;
    hide InQueue;
    hide Where;
    hide TurnsInv;
    var written, waiting := Where(Within, LogFrames(s.log)), Where(Within, Unwritten(s.jobs));
    var total := AllFrames(setup, s.calls[..s.done]) + Total(setup, s.turns);
    Assoc(written, waiting, Ahead(setup, s.turns));
    assert |total| == |written| + |waiting| + |Ahead(setup, s.turns)|;
    ShorterPrefix(written, waiting + Ahead(setup, s.turns), AllFrames(setup, s.calls[..s.done]), Total(setup, s.turns));
  }

  lemma ClosedFacts(setup: Setup, turns: seq<Turn>)
    requires setup.maxFragmentSize >= 1 && turns != [] && turns[0].stage.Closed? && StageFits(turns[0])
    ensures Ahead(setup, turns) == [] && Total(setup, turns) == FramesOf(setup, turns[0].call)
  {
    hide FramesOf;
  }

  lemma ClosedIsPassedOn(setup: Setup, s: State)
    requires setup.maxFragmentSize >= 1 && TurnsInv(setup, s) && s.turns != [] && s.turns[0].stage.Closed?
    ensures s.done < |s.calls| && s.turns[0].call == s.calls[s.done]
    ensures Where(Within, s.submitted) == AllFrames(setup, s.calls[..s.done + 1])
  {
    TurnsFacts(setup, s);
    ServedFrames(setup, s);
    hide TurnsInv;
    hide Where;
    hide FramesOf;
    hide AllFrames;
    hide Ahead;
    hide Total;
    ClosedFacts(setup, s.turns);
    AllFramesSnoc(setup, s.calls, s.done);
    assert Where(Within, s.submitted) + [] == Where(Within, s.submitted);
  }

  /** Once the first call has closed the connection, its Close frame is written as well. */
  lemma ClosedIsWritten(setup: Setup, s: State)
    requires setup.maxFragmentSize >= 1 && Reachable(setup, s) && s.turns != [] && s.turns[0].stage.Closed?
    ensures s.done < |s.calls| && s.turns[0].call == s.calls[s.done]
    ensures Where(Within, LogFrames(s.log)) == AllFrames(setup, s.calls[..s.done + 1])
  {
    hide FramesInv;
    hide TurnsInv;
    hide CountsInv;
    ReachableInv(setup, s);
    QueueClear(setup, s);
    ClosedIsPassedOn(setup, s);
  }

  /** Once no call is left, all message frames are written. */
  lemma AllServedIsWritten(setup: Setup, s: State)
    requires setup.maxFragmentSize >= 1 && Reachable(setup, s) && s.turns == []
    ensures s.done == |s.calls| && s.calls[..s.done] == s.calls
    ensures Where(Within, LogFrames(s.log)) == AllFrames(setup, s.calls)
  {
    hide FramesInv;
    hide CountsInv;
    ReachableInv(setup, s);
    QueueClear(setup, s);
    ServedFrames(setup, s);
    hide Where;
    hide AllFrames;
  }

  lemma FramesInOrder(setup: Setup, s: State)
    requires setup.maxFragmentSize >= 1 && Reachable(setup, s)
    ensures Served(s) <= |s.calls|
    ensures forall i :: 0 <= i < Served(s) - 1 ==> s.calls[i].SendMessage?
    ensures Where(Within, LogFrames(s.log)) <= AllFrames(setup, s.calls[..Served(s)])
  {
    ReachableInv(setup, s);
    WrittenIsPrefix(setup, s);
    WherePrefix(Within, LogFrames(s.log), s.submitted);
    ServedFrames(setup, s);
  }

  /** Leaving out pings and pongs, the frames written in a run are those of its `send` and `close` calls in call order, each
      fragment behind the other: a prefix of what the calls served amount to, all but the last of them sends. */
  lemma MessagesInOrder(setup: Setup, actions: seq<Action>)
    requires setup.maxFragmentSize >= 1 && Possible(setup, INITIAL, actions)
    ensures var s, calls := After(setup, INITIAL, actions), MessageCalls(actions);
            && Served(s) <= |calls|
            && (forall i :: 0 <= i < Served(s) - 1 ==> calls[i].SendMessage?)
            && Where(Within, LogFrames(s.log)) <= AllFrames(setup, calls[..Served(s)])
  {
    RunRecords(setup, actions);
    FramesInOrder(setup, After(setup, INITIAL, actions));
    hide After;
    hide Possible;
    hide MessageCalls;
    hide Where;
    hide AllFrames;
  }

  lemma {:induction false} NoCloseInMessages(setup: Setup, calls: seq<Call>)
    requires setup.maxFragmentSize >= 1 && forall i :: 0 <= i < |calls| ==> calls[i].SendMessage?
    ensures forall i :: 0 <= i < |AllFrames(setup, calls)| ==> AllFrames(setup, calls)[i].opcode != CLOSE
  {
    if calls != [] {
      var last := calls[|calls| - 1];
      NoCloseInMessages(setup, calls[..|calls| - 1]);
      NoCloseInMessage(setup, last);
      hide FramesOf;
    }
  }

  lemma NoCloseInMessage(setup: Setup, call: Call)
    requires setup.maxFragmentSize >= 1 && call.SendMessage?
    ensures forall i :: 0 <= i < |FramesOf(setup, call)| ==> FramesOf(setup, call)[i].opcode != CLOSE
  {
    FragmentsPartition(call.text, call.data, setup.maxFragmentSize);
  }

  /** A kept element in a list, and one behind it. */
  lemma WhereTwo(keep: OutFrame -> bool, fs: seq<OutFrame>, i: nat, j: nat)
    requires i < j < |fs| && keep(fs[i]) && keep(fs[j])
    ensures exists k: nat :: k + 1 < |Where(keep, fs)| && Where(keep, fs)[k] == fs[i]
  {
    var a, b := fs[..i], fs[i + 1..];
    var c, d := fs[i + 1..j], fs[j + 1..];
    assert fs == a + ([fs[i]] + b) && b == c + ([fs[j]] + d);
    WhereConcat(keep, a, [fs[i]] + b);
    WhereConcat(keep, c, [fs[j]] + d);
    assert ([fs[i]] + b)[1..] == b && ([fs[j]] + d)[1..] == d;
    assert Where(keep, [fs[i]] + b) == [fs[i]] + Where(keep, b);
    assert Where(keep, [fs[j]] + d) == [fs[j]] + Where(keep, d);
    hide Where;
    assert Where(keep, b) != [];
    assert Where(keep, fs)[|Where(keep, a)|] == fs[i];
  }

  lemma ConcatIndex<T>(a: seq<T>, b: seq<T>, k: nat)
    requires k < |a| + |b|
    ensures if k < |a| then (a + b)[k] == a[k] else (a + b)[k] == b[k - |a|]
  {
  }

  /** In what the served calls amount to, a Close frame is the last. */
  lemma CloseComesLast(setup: Setup, s: State, k: nat)
    requires setup.maxFragmentSize >= 1 && TurnsInv(setup, s)
    requires var all := AllFrames(setup, s.calls[..Served(s)]); k < |all| && all[k].opcode == CLOSE
    ensures k + 1 == |AllFrames(setup, s.calls[..Served(s)])|
  {
    ServedFrames(setup, s);
    ServedSplit(setup, s);
    NoCloseInMessages(setup, s.calls[..s.done]);
    var before := AllFrames(setup, s.calls[..s.done]);
    if Served(s) > s.done {
      ConcatIndex(before, FramesOf(setup, s.calls[s.done]), k);
      if s.calls[s.done].SendMessage? {
        NoCloseInMessage(setup, s.calls[s.done]);
      }
    } else {
      ConcatIndex(before, [], k);
    }
    hide TurnsInv;
    hide AllFrames;
    hide Where;
    hide Fragments;
  }

  /** After a Close frame nothing but pings and pongs is ever written, so there is at most one Close. */
  lemma NothingAfterClose(setup: Setup, s: State, i: nat, j: nat)
    requires setup.maxFragmentSize >= 1 && Reachable(setup, s)
    requires i < j < |s.log| && s.log[i].frame.opcode == CLOSE
    ensures Aside(s.log[j].frame)
  {
    if Within(s.log[j].frame) {
      var fs := LogFrames(s.log);
      ReachableInv(setup, s);
      FramesInOrder(setup, s);
      hide FramesInv;
      hide TurnsInv;
      hide CountsInv;
      WhereTwo(Within, fs, i, j);
      var k: nat :| k + 1 < |Where(Within, fs)| && Where(Within, fs)[k] == fs[i];
      CloseComesLast(setup, s, k);
    }
  }

  lemma ControlsOnRecord(setup: Setup, s: State)
    requires setup.maxFragmentSize >= 1 && Reachable(setup, s)
    ensures Where(Aside, LogFrames(s.log)) <= s.controls
    ensures s.jobs == [] ==> Where(Aside, LogFrames(s.log)) == s.controls
  {
    ReachableInv(setup, s);
    WrittenIsPrefix(setup, s);
    WherePrefix(Aside, LogFrames(s.log), s.submitted);
  }

  /** Pings and pongs are written in the order of the run's calls, a ping for a `ping` and a pong for a `pong` with its payload;
      all of them once the frame mutex is free. */
  lemma ControlsInOrder(setup: Setup, actions: seq<Action>)
    requires setup.maxFragmentSize >= 1 && Possible(setup, INITIAL, actions)
    ensures var s := After(setup, INITIAL, actions);
            && Where(Aside, LogFrames(s.log)) <= ControlCalls(actions)
            && (s.jobs == [] ==> Where(Aside, LogFrames(s.log)) == ControlCalls(actions))
  {
    RunRecords(setup, actions);
    ControlsOnRecord(setup, After(setup, INITIAL, actions));
    hide After;
    hide Possible;
    hide ControlCalls;
    hide Where;
  }

  predicate IsPong(f: OutFrame) {
    f.opcode == PONG
  }

  /** The `pong` calls of a run alone. */
  function PongCalls(actions: seq<Action>): seq<OutFrame> {
    if actions == [] then []
    else
      (if actions[0].MakeControl? && !actions[0].ping then [OutFrame(PONG, actions[0].payload, true)] else [])
      + PongCalls(actions[1..])
  }

  lemma {:induction false} PongsAmong(actions: seq<Action>)
    ensures Where(IsPong, ControlCalls(actions)) == PongCalls(actions)
  {
    if actions != [] {
      var first := if actions[0].MakeControl? then
                     [OutFrame(if actions[0].ping then PING else PONG, actions[0].payload, true)] else [];
      assert ControlCalls(actions) == first + ControlCalls(actions[1..]);
      PongsAmong(actions[1..]);
      WhereConcat(IsPong, first, ControlCalls(actions[1..]));
      assert first != [] ==> first[1..] == [] && Where(IsPong, first) == (if IsPong(first[0]) then first else []) + [];
    }
  }

  /** The same for pongs alone, by which pings are answered. */
  lemma PongsInOrder(setup: Setup, actions: seq<Action>)
    requires setup.maxFragmentSize >= 1 && Possible(setup, INITIAL, actions)
    ensures var s := After(setup, INITIAL, actions);
            && Where(IsPong, LogFrames(s.log)) <= PongCalls(actions)
            && (s.jobs == [] ==> Where(IsPong, LogFrames(s.log)) == PongCalls(actions))
  {
    var s := After(setup, INITIAL, actions);
    RunRecords(setup, actions);
    ReachableInv(setup, s);
    WrittenIsPrefix(setup, s);
    WherePrefix(IsPong, LogFrames(s.log), s.submitted);
    WhereWithin(s.submitted);
    PongsAmong(actions);
    assert Where(Aside, s.submitted) == s.controls;
    hide After;
    hide Possible;
    hide FramesInv;
    hide TurnsInv;
    hide ControlCalls;
    hide PongCalls;
    hide Where;
  }

  lemma {:induction false} WhereWithin(fs: seq<OutFrame>)
    ensures Where(IsPong, Where(Aside, fs)) == Where(IsPong, fs)
  {
    if fs != [] {
      WhereWithin(fs[1..]);
      if Aside(fs[0]) {
        assert Where(Aside, fs)[1..] == Where(Aside, fs[1..]);
      } else {
        assert Where(Aside, fs) == Where(Aside, fs[1..]) && Where(IsPong, fs) == Where(IsPong, fs[1..]);
      }
    }
  }

  /** The bytes of the messages among some calls. */
  function DataBytes(calls: seq<Call>): nat {
    if calls == [] then 0
    else (match calls[0] case SendMessage(_, data) => |data| case CloseWith(_, _) => 0) + DataBytes(calls[1..])
  }

  lemma {:induction false} SizesAgree(turns: seq<Turn>, calls: seq<Call>)
    requires |turns| == |calls| && forall i :: 0 <= i < |turns| ==> turns[i].call == calls[i]
    ensures TotalSize(turns) == DataBytes(calls)
  {
    if turns != [] {
      SizesAgree(turns[1..], calls[1..]);
    }
  }

  lemma TurnsAreCalls(setup: Setup, s: State)
    requires setup.maxFragmentSize >= 1 && TurnsInv(setup, s)
    ensures s.done + |s.turns| == |s.calls|
    ensures forall i :: 0 <= i < |s.turns| ==> s.turns[i].call == s.calls[s.done..][i]
  {
  }

  /** `bufferedAmount` is the number of bytes of all messages whose `send` has not finished. */
  lemma BufferedIsPending(setup: Setup, actions: seq<Action>)
    requires setup.maxFragmentSize >= 1 && Possible(setup, INITIAL, actions)
    ensures var s, calls := After(setup, INITIAL, actions), MessageCalls(actions);
            s.done + |s.turns| == |calls| && s.bufferedAmount == DataBytes(calls[s.done..])
  {
    var s := After(setup, INITIAL, actions);
    RunRecords(setup, actions);
    ReachableInv(setup, s);
    hide After;
    hide Possible;
    hide MessageCalls;
    hide FramesInv;
    TurnsAreCalls(setup, s);
    hide TurnsInv;
    SizesAgree(s.turns, s.calls[s.done..]);
  }

  /** When both mutexes are free everything a run has called for is on the wire. */
  lemma IdleMeansSent(setup: Setup, actions: seq<Action>)
    requires setup.maxFragmentSize >= 1 && Possible(setup, INITIAL, actions)
    requires var s := After(setup, INITIAL, actions); s.jobs == [] && s.turns == []
    ensures var s := After(setup, INITIAL, actions);
            && s.wire == WireBytes(s.log)
            && Where(Within, LogFrames(s.log)) == AllFrames(setup, MessageCalls(actions))
            && Where(Aside, LogFrames(s.log)) == ControlCalls(actions)
            && s.bufferedAmount == 0
            && forall i :: 0 <= i < |MessageCalls(actions)| ==> MessageCalls(actions)[i].SendMessage?
  {
    var s := After(setup, INITIAL, actions);
    RunRecords(setup, actions);
    ReachableInv(setup, s);
    hide After;
    hide Possible;
    hide MessageCalls;
    hide ControlCalls;
    WrittenIsPrefix(setup, s);
    ServedFrames(setup, s);
    hide Where;
    hide AllFrames;
    hide WireBytes;
    assert WireBytes(s.log) + [] == WireBytes(s.log);
  }

  // ---- progress

  predicate IsCall(a: Action) {
    a.Make? || a.MakeControl? || a.TrustCodes?
  }

  /** The first call closed the connection, or threw while it held the message mutex. */
  predicate Stuck(s: State) {
    s.turns != [] && (s.turns[0].stage.Closed? || s.turns[0].stage.Refused?)
  }

  /** A frame waits, or a call that is not stuck does. */
  predicate Pending(s: State) {
    s.jobs != [] || (s.turns != [] && !Stuck(s))
  }

  lemma NextMove(setup: Setup, s: State) returns (a: Action)
    requires setup.maxFragmentSize >= 1 && Inv(setup, s) && Pending(s)
    ensures !IsCall(a) && Enabled(setup, s, a)
  {
    hide FramesInv;
    hide TurnsInv;
    hide CountsInv;
    if s.jobs != [] {
      match s.jobs[0].progress
      case Queued => a := LockFrame(0);
      case Locked(_) => a := WriteHead;
      case HeadWritten(_) => a := WriteBody;
      case Finished => a := ReleaseFrame;
    } else {
      FreeQueue(setup, s);
      a := if s.turns[0].stage.Waiting? then TakeTurn else Continue;
    }
  }

  lemma MovesWhilePending(setup: Setup, s: State)
    requires setup.maxFragmentSize >= 1 && Inv(setup, s)
    ensures Pending(s) <==> exists a :: !IsCall(a) && Enabled(setup, s, a)
  {
    if Pending(s) {
      var a := NextMove(setup, s);
    }
    hide Inv;
  }

  /** No deadlock: a step other than a new call is possible exactly while something is pending. */
  lemma NoDeadlock(setup: Setup, s: State)
    requires setup.maxFragmentSize >= 1 && Reachable(setup, s)
    ensures Pending(s) <==> exists a :: !IsCall(a) && Enabled(setup, s, a)
  {
    ReachableInv(setup, s);
    MovesWhilePending(setup, s);
  }

  lemma FreeQueue(setup: Setup, s: State)
    requires setup.maxFragmentSize >= 1 && TurnsInv(setup, s) && s.jobs == [] && s.turns != []
    ensures !s.turns[0].stage.Writing?
    ensures s.turns[0].stage.Written? ==> s.turns[0].call.SendMessage?
  {
    assert Where(Within, JobFrames(s.jobs)) == [];
    assert s.turns[0].stage.Writing? ==> |InQueue(setup, s.turns)| == 1;
  }

  lemma StepWhenStuck(setup: Setup, s: State, a: Action)
    requires Stuck(s) && Enabled(setup, s, a)
    ensures var t := Next(setup, s, a);
            && Stuck(t) && t.turns[0] == s.turns[0] && t.done == s.done
            && Where(Within, t.submitted) == Where(Within, s.submitted)
  {
    if a.MakeControl? {
      SubmitWithin(s, OutFrame(if a.ping then PING else PONG, a.payload, true));
      assert Where(Within, s.submitted) + [] == Where(Within, s.submitted);
    }
    hide Where;
  }

  /** A `close` that throws blocks like one that closed: no message frame is passed on ever after, no `send` returns. */
  lemma {:induction false} StuckForGood(setup: Setup, s: State, actions: seq<Action>)
    requires Stuck(s) && Possible(setup, s, actions)
    ensures var t := After(setup, s, actions);
            && Stuck(t) && t.turns[0] == s.turns[0] && t.done == s.done
            && Where(Within, t.submitted) == Where(Within, s.submitted)
    decreases |actions|
  {
    hide Where;
    hide Next;
    hide Enabled;
    if actions != [] {
      StepWhenStuck(setup, s, actions[0]);
      StuckForGood(setup, Next(setup, s, actions[0]), actions[1..]);
    }
  }
}
