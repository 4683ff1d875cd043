/** How the writer comes to rest: without new calls every run of its steps is bounded, and it ends with all frames written
    and no call waiting, or waiting behind a `close`. What a `close` that throws does to the calls behind it. */
module WriterProgress {
  import opened Bytes
  import opened Frames
  import opened Writer
  import opened Interleaving
  import opened WriterSafety

  // ---- a bound on the steps left

  /** The steps a frame in the frame queue has at most before it. */
  function JobCost(job: Job): nat {
    match job.progress
    case Queued => 4
    case Locked(_) => 3
    case HeadWritten(_) => 2
    case Finished => 1
  }

  function JobsCost(jobs: seq<Job>): nat {
    if jobs == [] then 0 else JobCost(jobs[0]) + JobsCost(jobs[1..])
  }

  /** Five steps for each frame ahead, and one to unlock after a message. */
  function TurnCost(setup: Setup, t: Turn): nat
    requires setup.maxFragmentSize >= 1
  {
    if StageFits(t) then 5 * |Ahead(setup, [t])| + (if t.call.SendMessage? then 1 else 0) else 0
  }

  function TurnsCost(setup: Setup, turns: seq<Turn>): nat
    requires setup.maxFragmentSize >= 1
  {
    if turns == [] then 0 else TurnCost(setup, turns[0]) + TurnsCost(setup, turns[1..])
  }

  function Cost(setup: Setup, s: State): nat
    requires setup.maxFragmentSize >= 1
  {
    JobsCost(s.jobs) + TurnsCost(setup, s.turns)
  }

  lemma {:induction false} JobsCostSnoc(jobs: seq<Job>, job: Job)
    ensures JobsCost(jobs + [job]) == JobsCost(jobs) + JobCost(job)
  {
    if jobs == [] {
      assert jobs + [job] == [job];
    } else {
      assert (jobs + [job])[1..] == jobs[1..] + [job];
      JobsCostSnoc(jobs[1..], job);
    }
  }

  lemma ProgressCosts(s: State, p: Progress)
    requires s.jobs != []
    ensures JobsCost(SetProgress(s, p).jobs) + JobCost(s.jobs[0]) == JobsCost(s.jobs) + JobCost(s.jobs[0].(progress := p))
  {
    assert SetProgress(s, p).jobs[1..] == s.jobs[1..];
  }

  lemma StageCosts(setup: Setup, turns: seq<Turn>, stage: Stage)
    requires setup.maxFragmentSize >= 1 && turns != []
    ensures TurnsCost(setup, [turns[0].(stage := stage)] + turns[1..]) + TurnCost(setup, turns[0])
         == TurnsCost(setup, turns) + TurnCost(setup, turns[0].(stage := stage))
  {
    hide TurnCost;
    assert ([turns[0].(stage := stage)] + turns[1..])[1..] == turns[1..];
  }

  /** Passing on a fragment takes one frame off those ahead and puts one job into the frame queue. */
  lemma FragmentCosts(setup: Setup, s: State, from: nat)
    requires setup.maxFragmentSize >= 1 && s.turns != [] && StageFits(s.turns[0])
    requires s.turns[0].call.SendMessage? && from <= |s.turns[0].call.data|
    requires Ahead(setup, s.turns)
          == FragmentsFrom(s.turns[0].call.text, s.turns[0].call.data, setup.maxFragmentSize, from)
    ensures Cost(setup, WriteFragment(setup, s, from)) < Cost(setup, s)
  {
    var t := s.turns[0];
    NextIsAhead(setup, t.call, from);
    StageCosts(setup, s.turns, Writing(from));
    JobsCostSnoc(s.jobs, Job(FragmentAt(t.call.text, t.call.data, setup.maxFragmentSize, from), Queued));
    assert Ahead(setup, [t]) == Ahead(setup, s.turns);
    assert Ahead(setup, [t.(stage := Writing(from))]) == Behind(setup, t.call, from);
    hide FragmentAt;
    hide FragmentsFrom;
    hide Ahead;
    hide Behind;
    hide JobsCost;
    hide TurnsCost;
  }

  lemma TakeTurnCosts(setup: Setup, s: State)
    requires setup.maxFragmentSize >= 1 && s.turns != [] && s.turns[0].stage.Waiting?
    ensures Cost(setup, TurnStep(setup, s)) < Cost(setup, s)
  {
    hide FragmentsFrom;
    hide CloseFrame;
    hide CloseThrows;
    match s.turns[0].call
    case SendMessage(_, _) =>
      FragmentCosts(setup, s, 0);
      hide WriteFragment;
    case CloseWith(code, reason) =>
      StageCosts(setup, s.turns, Stage.Refused);
      StageCosts(setup, s.turns, Writing(0));
      JobsCostSnoc(s.jobs, Job(CloseFrame(setup, code, reason), Queued));
      hide JobsCost;
      hide TurnsCost;
  }

  lemma ContinueCosts(setup: Setup, s: State)
    requires setup.maxFragmentSize >= 1 && s.turns != [] && StageFits(s.turns[0])
    requires s.turns[0].stage.Written? && s.turns[0].call.SendMessage?
    ensures Cost(setup, ContinueStep(setup, s)) < Cost(setup, s)
  {
    hide WriteFragment;
    hide FragmentsFrom;
    if s.turns[0].stage.from + setup.maxFragmentSize < |s.turns[0].call.data| {
      AheadWhenWritten(setup, s.turns);
      FragmentCosts(setup, s, s.turns[0].stage.from + setup.maxFragmentSize);
    }
  }

  lemma ReleaseCosts(setup: Setup, s: State)
    requires setup.maxFragmentSize >= 1 && (s.turns != [] ==> StageFits(s.turns[0]))
    requires s.jobs != [] && s.jobs[0].progress.Finished?
    ensures Cost(setup, ReleaseStep(s)) < Cost(setup, s)
  {
    if s.turns != [] && s.turns[0].stage.Writing? {
      StageCosts(setup, s.turns, Closed);
      StageCosts(setup, s.turns, Written(s.turns[0].stage.from));
    }
    hide TurnsCost;
    hide FragmentsFrom;
  }

  lemma WriteCosts(setup: Setup, s: State)
    requires setup.maxFragmentSize >= 1 && s.jobs != []
    ensures s.jobs[0].progress.Locked? ==> Cost(setup, HeadStep(s)) < Cost(setup, s)
    ensures s.jobs[0].progress.HeadWritten? ==> Cost(setup, BodyStep(s)) < Cost(setup, s)
  {
    if s.jobs[0].progress.Locked? {
      ProgressCosts(s, HeadWritten(s.jobs[0].progress.mask));
    }
    ProgressCosts(s, Finished);
    hide JobsCost;
    hide TurnsCost;
    hide HeadBytes;
    hide BodyBytes;
  }

  /** Every step that is no new call brings the writer nearer to rest. */
  lemma StepCosts(setup: Setup, s: State, a: Action)
    requires setup.maxFragmentSize >= 1 && (s.turns != [] ==> StageFits(s.turns[0]))
    requires Enabled(setup, s, a) && !IsCall(a)
    ensures Cost(setup, Next(setup, s, a)) < Cost(setup, s)
  {
    hide Cost;
    hide TurnStep;
    hide HeadStep;
    hide BodyStep;
    hide ReleaseStep;
    hide ContinueStep;
    match a
    case TakeTurn => TakeTurnCosts(setup, s);
    case LockFrame(random) => LockCosts(setup, s, Locked(MaskFor(setup.isClient, setup.zeroMasking, random)));
    case WriteHead => WriteCosts(setup, s);
    case WriteBody => WriteCosts(setup, s);
    case ReleaseFrame => ReleaseCosts(setup, s);
    case Continue => ContinueCosts(setup, s);
  }

  lemma LockCosts(setup: Setup, s: State, p: Progress)
    requires setup.maxFragmentSize >= 1 && s.jobs != [] && s.jobs[0].progress.Queued? && p.Locked?
    ensures Cost(setup, SetProgress(s, p)) < Cost(setup, s)
  {
    ProgressCosts(s, p);
    hide JobsCost;
    hide TurnsCost;
  }

  // ---- runs without new calls

  predicate NoCalls(actions: seq<Action>) {
    forall i :: 0 <= i < |actions| ==> !IsCall(actions[i])
  }

  /** One step of a run keeps the invariant and, unless it is a new call, costs. */
  lemma StepDraws(setup: Setup, s: State, a: Action)
    requires setup.maxFragmentSize >= 1 && Inv(setup, s) && Enabled(setup, s, a)
    ensures Inv(setup, Next(setup, s, a))
    ensures !IsCall(a) ==> Cost(setup, Next(setup, s, a)) < Cost(setup, s)
  {
    hide Cost;
    hide Enabled;
    hide Next;
    hide FramesInv;
    hide CountsInv;
    StepKeepsFrames(setup, s, a);
    StepKeepsTurns(setup, s, a);
    StepKeepsCounts(setup, s, a);
    TurnsFacts(setup, s);
    if !IsCall(a) {
      StepCosts(setup, s, a);
    }
  }

  /** Without new calls the writer cannot go on for longer than its cost. */
  lemma {:induction false} RunIsBounded(setup: Setup, s: State, actions: seq<Action>)
    requires setup.maxFragmentSize >= 1 && Inv(setup, s) && Possible(setup, s, actions) && NoCalls(actions)
    ensures |actions| + Cost(setup, After(setup, s, actions)) <= Cost(setup, s)
    decreases |actions|
  {
    hide Inv;
    hide Cost;
    hide Enabled;
    hide Next;
    if actions != [] {
      StepDraws(setup, s, actions[0]);
      RunIsBounded(setup, Next(setup, s, actions[0]), actions[1..]);
    }
  }

  ghost predicate Drains(setup: Setup, s: State, actions: seq<Action>)
    requires setup.maxFragmentSize >= 1
  {
    Possible(setup, s, actions) && NoCalls(actions) && !Pending(After(setup, s, actions))
  }

  lemma DrainCons(setup: Setup, s: State, a: Action, rest: seq<Action>)
    requires setup.maxFragmentSize >= 1 && Enabled(setup, s, a) && !IsCall(a) && Drains(setup, Next(setup, s, a), rest)
    ensures Drains(setup, s, [a] + rest)
  {
    hide Enabled;
    hide Next;
    hide Pending;
    assert ([a] + rest)[1..] == rest;
  }

  /** From every state within the invariant some run without new calls leaves nothing pending. */
  lemma {:induction false} DrainExists(setup: Setup, s: State)
    requires setup.maxFragmentSize >= 1 && Inv(setup, s)
    ensures exists actions :: Drains(setup, s, actions)
    decreases Cost(setup, s)
  {
    hide Inv;
    hide Cost;
    hide Enabled;
    hide Next;
    hide Pending;
    if Pending(s) {
      var a := NextMove(setup, s);
      StepDraws(setup, s, a);
      var t := Next(setup, s, a);
      DrainExists(setup, t);
      var rest :| Drains(setup, t, rest);
      DrainCons(setup, s, a, rest);
    } else {
      assert Drains(setup, s, []);
    }
  }

  /** The writer always comes to rest. From every reachable state, a run without new calls has a bounded number of steps,
      stops only when nothing is pending, and can be prolonged to one that does. */
  lemma ComesToRest(setup: Setup, s: State, actions: seq<Action>)
    requires setup.maxFragmentSize >= 1 && Reachable(setup, s) && Possible(setup, s, actions) && NoCalls(actions)
    ensures |actions| <= Cost(setup, s)
    ensures var t := After(setup, s, actions);
            && ((exists a :: !IsCall(a) && Enabled(setup, t, a)) <==> Pending(t))
            && exists rest :: Drains(setup, t, rest)
  {
    hide After;
    hide Possible;
    hide Inv;
    hide Cost;
    hide Pending;
    hide Enabled;
    ReachableInv(setup, s);
    RunKeepsInv(setup, s, actions);
    RunIsBounded(setup, s, actions);
    MovesWhilePending(setup, After(setup, s, actions));
    DrainExists(setup, After(setup, s, actions));
  }

  // ---- a `close` that throws

  predicate HasClose(log: seq<Sent>) {
    exists i :: 0 <= i < |log| && log[i].frame.opcode == CLOSE
  }

  /** Some continuation, new calls allowed, puts a Close frame on the wire. */
  ghost predicate MayClose(setup: Setup, s: State) {
    exists actions :: Possible(setup, s, actions) && HasClose(After(setup, s, actions).log)
  }

  /** While the first call has thrown, none of the message frames passed on is a Close. */
  lemma NoCloseBefore(setup: Setup, s: State)
    requires setup.maxFragmentSize >= 1 && TurnsInv(setup, s) && s.turns != [] && s.turns[0].stage.Refused?
    ensures forall f :: f in Where(Within, s.submitted) ==> f.opcode != CLOSE
  {
    ServedFrames(setup, s);
    NoCloseInMessages(setup, s.calls[..s.done]);
    hide TurnsInv;
    hide Where;
    hide AllFrames;
    forall f | f in Where(Within, s.submitted)
      ensures f in AllFrames(setup, s.calls[..Served(s)])
    {
      var i :| 0 <= i < |Where(Within, s.submitted)| && Where(Within, s.submitted)[i] == f;
      assert AllFrames(setup, s.calls[..Served(s)])[i] == f;
    }
  }

  lemma RefusedNeverCloses(setup: Setup, s: State, actions: seq<Action>)
    requires setup.maxFragmentSize >= 1 && Inv(setup, s) && s.turns != [] && s.turns[0].stage.Refused?
    requires Possible(setup, s, actions)
    ensures !HasClose(After(setup, s, actions).log)
  {
    var u := After(setup, s, actions);
    StuckForGood(setup, s, actions);
    RunKeepsInv(setup, s, actions);
    NoCloseBefore(setup, s);
    WrittenIsPrefix(setup, u);
    hide After;
    hide Possible;
    hide Inv;
    hide Where;
    if HasClose(u.log) {
      var i :| 0 <= i < |u.log| && u.log[i].frame.opcode == CLOSE;
      assert LogFrames(u.log)[i] == u.log[i].frame;
      WhereMember(Within, u.submitted, i);
    }
  }

  lemma StepSubmits(setup: Setup, s: State, a: Action)
    requires Enabled(setup, s, a)
    ensures s.submitted <= Next(setup, s, a).submitted
  {
    hide FragmentAt;
    hide CloseFrame;
    hide CloseThrows;
    hide HeadBytes;
    hide BodyBytes;
  }

  lemma {:induction false} RunSubmits(setup: Setup, s: State, actions: seq<Action>)
    requires Possible(setup, s, actions)
    ensures s.submitted <= After(setup, s, actions).submitted
    decreases |actions|
  {
    hide Next;
    hide Enabled;
    if actions != [] {
      StepSubmits(setup, s, actions[0]);
      RunSubmits(setup, Next(setup, s, actions[0]), actions[1..]);
    }
  }

  /** A Close frame passed on can always be written. */
  lemma SubmittedMayClose(setup: Setup, s: State, i: nat)
    requires setup.maxFragmentSize >= 1 && Inv(setup, s)
    requires i < |s.submitted| && s.submitted[i].opcode == CLOSE
    ensures MayClose(setup, s)
  {
    DrainExists(setup, s);
    var actions :| Drains(setup, s, actions);
    RunSubmits(setup, s, actions);
    RunKeepsInv(setup, s, actions);
    var u := After(setup, s, actions);
    hide After;
    hide Possible;
    WrittenIsPrefix(setup, u);
    hide Inv;
    assert u.log[i].frame == LogFrames(u.log)[i] == s.submitted[i];
  }

  /** The exact condition: when a `close` gets its turn, a Close frame can still be written if and only if the call does not
      throw, whatever is called and done afterwards. */
  lemma ClosesUnlessRefused(setup: Setup, s: State)
    requires setup.maxFragmentSize >= 1 && Reachable(setup, s)
    requires s.turns != [] && s.turns[0].stage.Waiting? && s.turns[0].call.CloseWith?
    ensures MayClose(setup, Next(setup, s, TakeTurn))
       <==> !CloseThrows(setup, s.checkCloseCode, s.turns[0].call.code, s.turns[0].call.reason)
  {
    var call, t := s.turns[0].call, Next(setup, s, TakeTurn);
    ReachableInv(setup, s);
    StepDraws(setup, s, TakeTurn);
    hide Inv;
    hide CloseThrows;
    if CloseThrows(setup, s.checkCloseCode, call.code, call.reason) {
      assert t == SetStage(s, Stage.Refused);
      forall actions | Possible(setup, t, actions)
        ensures !HasClose(After(setup, t, actions).log)
      {
        RefusedNeverCloses(setup, t, actions);
      }
    } else {
      assert t.submitted == s.submitted + [CloseFrame(setup, call.code, call.reason)];
      SubmittedMayClose(setup, t, |s.submitted|);
    }
  }

  const BAD_CLOSE := CloseWith(1001, None)
  const GREETING := SendMessage(true, [104, 105])

  function OneCall(): State {
    State([Turn(BAD_CLOSE, Waiting)], [], [], 0, true, [], [], [BAD_CLOSE], [], 0)
  }

  function TwoCalls(): State {
    State([Turn(BAD_CLOSE, Waiting), Turn(GREETING, Waiting)], [], [], 2, true, [], [], [BAD_CLOSE, GREETING], [], 0)
  }

  /** A client's `close(1001)` has thrown, with a message behind it. */
  function AfterRefusal(): State {
    State([Turn(BAD_CLOSE, Stage.Refused), Turn(GREETING, Waiting)], [], [], 2, true, [], [], [BAD_CLOSE, GREETING], [], 0)
  }

  lemma FirstCall(call: Call)
    ensures MakeStep(INITIAL, call) == State([Turn(call, Waiting)], [], [], Size(call), true, [], [], [call], [], 0)
  {
  }

  lemma CloseIsCalled(setup: Setup)
    ensures Enabled(setup, INITIAL, Make(BAD_CLOSE)) && Next(setup, INITIAL, Make(BAD_CLOSE)) == OneCall()
  {
    FirstCall(BAD_CLOSE);
    hide MakeStep;
    NextMessageStep(setup, INITIAL, Make(BAD_CLOSE));
    hide Next;
  }

  lemma GreetingIsCalled(setup: Setup)
    ensures Enabled(setup, OneCall(), Make(GREETING)) && Next(setup, OneCall(), Make(GREETING)) == TwoCalls()
  {
    NextMessageStep(setup, OneCall(), Make(GREETING));
    hide Next;
  }

  lemma CloseIsRefused(setup: Setup)
    requires setup.isClient
    ensures Enabled(setup, TwoCalls(), TakeTurn) && Next(setup, TwoCalls(), TakeTurn) == AfterRefusal()
  {
    assert CloseThrows(setup, true, 1001, None);
    hide CloseThrows;
    var s := TwoCalls();
    NextMessageStep(setup, s, TakeTurn);
    hide Next;
    assert s.turns[1..] == [Turn(GREETING, Waiting)];
    assert TurnStep(setup, s) == SetStage(s, Stage.Refused);
  }

  lemma ThreeSteps(setup: Setup, s: State, a: Action, b: Action, c: Action)
    requires Enabled(setup, s, a) && Enabled(setup, Next(setup, s, a), b)
    requires Enabled(setup, Next(setup, Next(setup, s, a), b), c)
    ensures Possible(setup, s, [a, b, c])
    ensures After(setup, s, [a, b, c]) == Next(setup, Next(setup, Next(setup, s, a), b), c)
  {
    hide Enabled;
    hide Next;
    assert [a, b, c][1..] == [b, c] && [b, c][1..] == [c] && [c][1..] == [];
    var s1 := Next(setup, s, a);
    var s2 := Next(setup, s1, b);
    assert Possible(setup, s2, [c]) && After(setup, s2, [c]) == Next(setup, s2, c);
    assert Possible(setup, s1, [b, c]) && After(setup, s1, [b, c]) == Next(setup, s2, c);
  }

  lemma RefusalIsReached(setup: Setup)
    requires setup.isClient
    ensures Reachable(setup, AfterRefusal())
  {
    hide Enabled;
    hide Next;
    hide OneCall;
    hide TwoCalls;
    hide AfterRefusal;
    CloseIsCalled(setup);
    GreetingIsCalled(setup);
    CloseIsRefused(setup);
    ThreeSteps(setup, INITIAL, Make(BAD_CLOSE), Make(GREETING), TakeTurn);
  }

  /** From there on, whatever happens, no message or Close frame is ever written and no `send` finishes. */
  lemma RefusedCloseBlocks(setup: Setup, actions: seq<Action>)
    requires setup.isClient && setup.maxFragmentSize >= 1 && Possible(setup, AfterRefusal(), actions)
    ensures Reachable(setup, AfterRefusal())
    ensures var t := After(setup, AfterRefusal(), actions);
            t.done == 0 && t.turns != [] && t.turns[0].stage.Refused? && Where(Within, LogFrames(t.log)) == []
  {
    var s := AfterRefusal();
    assert Stuck(s) && s.done == 0 && s.turns[0].stage.Refused? && Where(Within, s.submitted) == [];
    RefusalIsReached(setup);
    ReachableInv(setup, s);
    hide After;
    hide Possible;
    hide Where;
    hide AfterRefusal;
    hide FramesInv;
    hide TurnsInv;
    hide CountsInv;
    RunKeepsInv(setup, s, actions);
    StuckForGood(setup, s, actions);
    QueueClear(setup, After(setup, s, actions));
  }
}
