/** The writer's two queues are its two mutexes: every run of interleaved callers locks and unlocks each of them as a run of
    `Mutex` in which only holders unlock. */
module WriterMutexes {
  import opened Bytes
  import opened Frames
  import opened Writer
  import opened Interleaving
  import Mutexes

  /** What a step of the writer does to one of its queues. */
  datatype Move = Joined | Served | Left | Stayed

  /** The mutex after `released` unlocks, with `waiting` keys, the first of them holding the lock or not. */
  ghost predicate Shows(m: Mutexes.State, released: nat, waiting: nat, held: bool) {
    && Mutexes.InOrder(m, released)
    && |m.keys| == waiting
    && |m.granted| == released + (if held then 1 else 0)
  }

  function StepOf(move: Move, released: nat): seq<Mutexes.Step> {
    match move
    case Joined => [Mutexes.Lock]
    case Served => [Mutexes.Resume(released)]
    case Left => [Mutexes.Unlock(released)]
    case Stayed => []
  }

  predicate MoveFits(move: Move, waiting: nat, held: bool, waiting': nat, held': bool) {
    match move
    case Joined => waiting' == waiting + 1 && held' == held
    case Served => waiting > 0 && !held && waiting' == waiting && held'
    case Left => waiting > 0 && held && waiting' == waiting - 1 && !held'
    case Stayed => waiting' == waiting && held' == held
  }

  lemma LockShows(m: Mutexes.State, released: nat, waiting: nat, held: bool)
    requires Shows(m, released, waiting, held)
    ensures Shows(Mutexes.LockState(m), released, waiting + 1, held)
  {
    var next := Mutexes.StepInOrder(m, released, Mutexes.Lock);
  }

  lemma ResumeShows(m: Mutexes.State, released: nat, waiting: nat)
    requires Shows(m, released, waiting, false) && waiting > 0
    ensures Mutexes.Enabled(m, Mutexes.Resume(released))
    ensures Shows(Mutexes.Next(m, Mutexes.Resume(released)), released, waiting, true)
  {
    assert released !in m.granted;
  }

  lemma UnlockShows(m: Mutexes.State, released: nat, waiting: nat)
    requires Shows(m, released, waiting, true)
    ensures waiting > 0 && Mutexes.Enabled(m, Mutexes.Unlock(released))
    ensures Shows(Mutexes.Next(m, Mutexes.Unlock(released)), released + 1, waiting - 1, false)
  {
    assert m.granted[released] == released;
    var t := Mutexes.Next(m, Mutexes.Unlock(released));
    if t.keys != [] {
      assert m.keys[1] == released + 1;
      assert m.waitFor[released + 1] == Some(released);
    }
  }

  /** Each move of a queue is a possible step of the mutex behind it. */
  lemma MoveIsStep(m: Mutexes.State, released: nat, waiting: nat, held: bool, move: Move, waiting': nat, held': bool)
    requires Shows(m, released, waiting, held) && MoveFits(move, waiting, held, waiting', held')
    ensures Mutexes.Possible(m, StepOf(move, released))
    ensures Shows(Mutexes.After(m, StepOf(move, released)), released + (if move.Left? then 1 else 0), waiting', held')
  {
    match move
    case Joined => LockShows(m, released, waiting, held);
    case Served => ResumeShows(m, released, waiting);
    case Left => UnlockShows(m, released, waiting);
    case Stayed =>
    hide Shows;
    hide Mutexes.LockState;
    hide Mutexes.UnlockState;
    hide Mutexes.Enabled;
  }

  lemma {:induction false} StepsConcat(m: Mutexes.State, a: seq<Mutexes.Step>, b: seq<Mutexes.Step>)
    requires Mutexes.Possible(m, a) && Mutexes.Possible(Mutexes.After(m, a), b)
    ensures Mutexes.Possible(m, a + b) && Mutexes.After(m, a + b) == Mutexes.After(Mutexes.After(m, a), b)
    decreases |a|
  {
    hide Mutexes.Next;
    hide Mutexes.Enabled;
    if a == [] {
      assert a + b == b;
    } else {
      assert (a + b)[1..] == a[1..] + b && (a + b)[0] == a[0];
      StepsConcat(Mutexes.Next(m, a[0]), a[1..], b);
    }
  }

  // ---- the frame mutex

  predicate FrameHeld(s: State) {
    s.jobs != [] && !s.jobs[0].progress.Queued?
  }

  /** `lock` when a frame is submitted, the lock granted before its mask is drawn, `unlock` when it is written. */
  function FrameMove(s: State, a: Action, t: State): Move {
    if a.LockFrame? then Served
    else if a.ReleaseFrame? then Left
    else if |t.jobs| > |s.jobs| then Joined
    else Stayed
  }

  lemma SubmitJoins(s: State, f: OutFrame)
    ensures |Submit(s, f).jobs| == |s.jobs| + 1 && FrameHeld(Submit(s, f)) == FrameHeld(s)
  {
  }

  lemma FrameMoves(setup: Setup, s: State, a: Action)
    requires FramesInv(setup, s) && Enabled(setup, s, a)
    ensures var t := Next(setup, s, a);
            MoveFits(FrameMove(s, a, t), |s.jobs|, FrameHeld(s), |t.jobs|, FrameHeld(t))
  {
    hide FragmentAt;
    hide CloseFrame;
    hide CloseThrows;
    hide WireBytes;
    hide HeadBytes;
    hide BodyBytes;
    match a
    case MakeControl(ping, payload) => SubmitJoins(s, OutFrame(if ping then PING else PONG, payload, true));
    case ReleaseFrame =>
      assert |s.jobs| > 1 ==> s.jobs[1..][0] == s.jobs[1];
      hide QueueOk;
    case _ => hide QueueOk;
  }

  // ---- the message mutex

  predicate MessageHeld(s: State) {
    s.turns != [] && !s.turns[0].stage.Waiting?
  }

  /** `lock` when `send` or `close` is called, granted before its first frame, `unlock` behind the last fragment. */
  function MessageMove(s: State, a: Action, t: State): Move {
    if a.Make? then Joined
    else if a.TakeTurn? then Served
    else if |t.turns| < |s.turns| then Left
    else Stayed
  }

  lemma TurnIsTaken(setup: Setup, s: State)
    requires s.turns != [] && s.turns[0].stage.Waiting?
    ensures |TurnStep(setup, s).turns| == |s.turns| && MessageHeld(TurnStep(setup, s))
  {
    hide FragmentAt;
    hide CloseFrame;
    hide CloseThrows;
  }

  lemma ReleaseStays(s: State)
    requires s.jobs != []
    ensures |ReleaseStep(s).turns| == |s.turns| && MessageHeld(ReleaseStep(s)) == MessageHeld(s)
  {
    hide Aside;
  }

  lemma ContinueMoves(setup: Setup, s: State)
    requires s.turns != [] && s.turns[0].stage.Written? && s.turns[0].call.SendMessage?
    requires |s.turns| > 1 ==> s.turns[1].stage.Waiting?
    ensures var t := ContinueStep(setup, s);
            if |t.turns| < |s.turns| then |t.turns| == |s.turns| - 1 && !MessageHeld(t) else |t.turns| == |s.turns| && MessageHeld(t)
  {
    hide FragmentAt;
  }

  lemma FrameStepsHold(setup: Setup, s: State, a: Action)
    requires Enabled(setup, s, a)
    ensures a.MakeControl? || a.TrustCodes? || a.LockFrame? || a.WriteHead? || a.WriteBody? ==>
              var t := Next(setup, s, a); |t.turns| == |s.turns| && MessageHeld(t) == MessageHeld(s)
  {
    if a.MakeControl? || a.TrustCodes? || a.LockFrame? || a.WriteHead? || a.WriteBody? {
      FrameStepsStay(setup, s, a);
    }
    hide Next;
  }

  lemma FrameStepsStay(setup: Setup, s: State, a: Action)
    requires Enabled(setup, s, a) && (a.MakeControl? || a.TrustCodes? || a.LockFrame? || a.WriteHead? || a.WriteBody?)
    ensures Next(setup, s, a).turns == s.turns
  {
    hide HeadBytes;
    hide BodyBytes;
  }

  lemma CallJoins(s: State, call: Call)
    ensures |MakeStep(s, call).turns| == |s.turns| + 1 && MessageHeld(MakeStep(s, call)) == MessageHeld(s)
  {
  }

  lemma HeadIsServed(setup: Setup, s: State, a: Action)
    requires setup.maxFragmentSize >= 1 && TurnsInv(setup, s) && Enabled(setup, s, a)
    ensures |s.turns| > 1 ==> s.turns[1].stage.Waiting?
    ensures a.TakeTurn? ==> !MessageHeld(s)
    ensures a.Continue? ==> MessageHeld(s)
  {
  }

  lemma MessageMoves(setup: Setup, s: State, a: Action)
    requires setup.maxFragmentSize >= 1 && TurnsInv(setup, s) && Enabled(setup, s, a)
    ensures var t := Next(setup, s, a);
            MoveFits(MessageMove(s, a, t), |s.turns|, MessageHeld(s), |t.turns|, MessageHeld(t))
  {
    hide MessageHeld;
    hide Next;
    HeadIsServed(setup, s, a);
    hide TurnsInv;
    NextMessageStep(setup, s, a);
    FrameStepsHold(setup, s, a);
    hide MakeStep;
    hide TurnStep;
    hide ReleaseStep;
    hide ContinueStep;
    match a
    case Make(call) => CallJoins(s, call);
    case TakeTurn => TurnIsTaken(setup, s);
    case ReleaseFrame => ReleaseStays(s);
    case Continue => ContinueMoves(setup, s);
    case _ =>
  }

  // ---- runs

  /** What a run of the writer does to its frame mutex, which has been unlocked `released` times before. */
  function FrameRun(setup: Setup, s: State, actions: seq<Action>, released: nat): seq<Mutexes.Step>
    requires Possible(setup, s, actions)
    decreases |actions|
  {
    if actions == [] then []
    else
      var t := Next(setup, s, actions[0]);
      var move := FrameMove(s, actions[0], t);
      StepOf(move, released) + FrameRun(setup, t, actions[1..], released + if move.Left? then 1 else 0)
  }

  /** The same for its message mutex. */
  function MessageRun(setup: Setup, s: State, actions: seq<Action>, released: nat): seq<Mutexes.Step>
    requires Possible(setup, s, actions)
    decreases |actions|
  {
    if actions == [] then []
    else
      var t := Next(setup, s, actions[0]);
      var move := MessageMove(s, actions[0], t);
      StepOf(move, released) + MessageRun(setup, t, actions[1..], released + if move.Left? then 1 else 0)
  }

  /** A run of the mutex that ends with `waiting` keys, the first of them holding the lock or not. */
  predicate EndsAt(start: Mutexes.State, steps: seq<Mutexes.Step>, waiting: nat, held: bool) {
    && Mutexes.Possible(start, steps)
    && |Mutexes.After(start, steps).keys| == waiting
    && Mutexes.Seen(Mutexes.After(start, steps)).held == held
  }

  lemma StepKeepsInv(setup: Setup, s: State, a: Action)
    requires setup.maxFragmentSize >= 1 && Inv(setup, s) && Enabled(setup, s, a)
    ensures Inv(setup, Next(setup, s, a))
  {
    hide FramesInv;
    hide TurnsInv;
    hide CountsInv;
    hide Enabled;
    hide Next;
    StepKeepsFrames(setup, s, a);
    StepKeepsTurns(setup, s, a);
    StepKeepsCounts(setup, s, a);
  }

  lemma NothingEndsHere(m: Mutexes.State, released: nat, waiting: nat, held: bool)
    requires Shows(m, released, waiting, held) && (held ==> waiting > 0)
    ensures EndsAt(m, [], waiting, held)
  {
    if held {
      assert m.granted[released] == released;
    }
  }

  lemma MoveEndsLater(m: Mutexes.State, first: seq<Mutexes.Step>, later: seq<Mutexes.Step>, waiting: nat, held: bool)
    requires Mutexes.Possible(m, first) && EndsAt(Mutexes.After(m, first), later, waiting, held)
    ensures EndsAt(m, first + later, waiting, held)
  {
    StepsConcat(m, first, later);
  }

  lemma RunsBegin(setup: Setup, s: State, actions: seq<Action>, released: nat)
    requires Possible(setup, s, actions)
    ensures actions == [] ==> After(setup, s, actions) == s && FrameRun(setup, s, actions, released) == [] && MessageRun(setup, s, actions, released) == []
    ensures actions != [] ==>
              var t := Next(setup, s, actions[0]);
              var move, move' := FrameMove(s, actions[0], t), MessageMove(s, actions[0], t);
              && Enabled(setup, s, actions[0]) && Possible(setup, t, actions[1..])
              && After(setup, s, actions) == After(setup, t, actions[1..])
              && FrameRun(setup, s, actions, released)
                 == StepOf(move, released) + FrameRun(setup, t, actions[1..], released + if move.Left? then 1 else 0)
              && MessageRun(setup, s, actions, released)
                 == StepOf(move', released) + MessageRun(setup, t, actions[1..], released + if move'.Left? then 1 else 0)
  {
    hide Next;
    hide Enabled;
    hide FrameMove;
    hide MessageMove;
    hide StepOf;
  }

  lemma FrameStepFits(setup: Setup, s: State, a: Action, m: Mutexes.State, released: nat)
    requires setup.maxFragmentSize >= 1 && Inv(setup, s) && Enabled(setup, s, a)
    requires Shows(m, released, |s.jobs|, FrameHeld(s))
    ensures var t := Next(setup, s, a);
            var move := FrameMove(s, a, t);
            && Mutexes.Possible(m, StepOf(move, released))
            && Shows(Mutexes.After(m, StepOf(move, released)), released + (if move.Left? then 1 else 0), |t.jobs|, FrameHeld(t))
  {
    var t := Next(setup, s, a);
    FrameMoves(setup, s, a);
    hide Inv;
    hide Enabled;
    hide Next;
    hide Shows;
    hide FrameHeld;
    hide FrameMove;
    hide MoveFits;
    hide StepOf;
    MoveIsStep(m, released, |s.jobs|, FrameHeld(s), FrameMove(s, a, t), |t.jobs|, FrameHeld(t));
  }

  lemma HeldIsWaiting(s: State)
    ensures FrameHeld(s) ==> |s.jobs| > 0
    ensures MessageHeld(s) ==> |s.turns| > 0
  {
  }

  lemma {:induction false} FrameRunFits(setup: Setup, s: State, actions: seq<Action>, m: Mutexes.State, released: nat)
    requires setup.maxFragmentSize >= 1 && Inv(setup, s) && Possible(setup, s, actions)
    requires Shows(m, released, |s.jobs|, FrameHeld(s))
    ensures var t := After(setup, s, actions);
            EndsAt(m, FrameRun(setup, s, actions, released), |t.jobs|, FrameHeld(t))
    decreases |actions|
  {
    hide Inv;
    hide Enabled;
    hide Next;
    hide Shows;
    hide FrameHeld;
    hide EndsAt;
    HeldIsWaiting(s);
    RunsBegin(setup, s, actions, released);
    hide FrameRun;
    hide FrameMove;
    hide StepOf;
    hide Possible;
    hide After;
    hide Mutexes.Possible;
    hide Mutexes.After;
    if actions == [] {
      NothingEndsHere(m, released, |s.jobs|, FrameHeld(s));
    } else {
      var a, t, u := actions[0], Next(setup, s, actions[0]), After(setup, s, actions);
      var move := FrameMove(s, a, t);
      var released' := released + if move.Left? then 1 else 0;
      FrameStepFits(setup, s, a, m, released);
      StepKeepsInv(setup, s, a);
      FrameRunFits(setup, t, actions[1..], Mutexes.After(m, StepOf(move, released)), released');
      MoveEndsLater(m, StepOf(move, released), FrameRun(setup, t, actions[1..], released'), |u.jobs|, FrameHeld(u));
    }
  }

  lemma MessageStepFits(setup: Setup, s: State, a: Action, m: Mutexes.State, released: nat)
    requires setup.maxFragmentSize >= 1 && Inv(setup, s) && Enabled(setup, s, a)
    requires Shows(m, released, |s.turns|, MessageHeld(s))
    ensures var t := Next(setup, s, a);
            var move := MessageMove(s, a, t);
            && Mutexes.Possible(m, StepOf(move, released))
            && Shows(Mutexes.After(m, StepOf(move, released)), released + (if move.Left? then 1 else 0), |t.turns|, MessageHeld(t))
  {
    var t := Next(setup, s, a);
    MessageMoves(setup, s, a);
    hide Inv;
    hide Enabled;
    hide Next;
    hide Shows;
    hide MessageHeld;
    hide MessageMove;
    hide MoveFits;
    hide StepOf;
    MoveIsStep(m, released, |s.turns|, MessageHeld(s), MessageMove(s, a, t), |t.turns|, MessageHeld(t));
  }

  lemma {:induction false} MessageRunFits(setup: Setup, s: State, actions: seq<Action>, m: Mutexes.State, released: nat)
    requires setup.maxFragmentSize >= 1 && Inv(setup, s) && Possible(setup, s, actions)
    requires Shows(m, released, |s.turns|, MessageHeld(s))
    ensures var t := After(setup, s, actions);
            EndsAt(m, MessageRun(setup, s, actions, released), |t.turns|, MessageHeld(t))
    decreases |actions|
  {
    hide Inv;
    hide Enabled;
    hide Next;
    hide Shows;
    hide MessageHeld;
    hide EndsAt;
    HeldIsWaiting(s);
    RunsBegin(setup, s, actions, released);
    hide MessageRun;
    hide MessageMove;
    hide StepOf;
    hide Possible;
    hide After;
    hide Mutexes.Possible;
    hide Mutexes.After;
    if actions == [] {
      NothingEndsHere(m, released, |s.turns|, MessageHeld(s));
    } else {
      var a, t, u := actions[0], Next(setup, s, actions[0]), After(setup, s, actions);
      var move := MessageMove(s, a, t);
      var released' := released + if move.Left? then 1 else 0;
      MessageStepFits(setup, s, a, m, released);
      StepKeepsInv(setup, s, a);
      MessageRunFits(setup, t, actions[1..], Mutexes.After(m, StepOf(move, released)), released');
      MoveEndsLater(m, StepOf(move, released), MessageRun(setup, t, actions[1..], released'), |u.turns|, MessageHeld(u));
    }
  }

  /** For every run of the writer: both mutexes have been used as their contract demands, only holders unlocking; they hold
      one key for each waiting caller, and the first is granted exactly when its caller has been served. */
  lemma WriterUsesMutexes(setup: Setup, actions: seq<Action>)
    requires setup.maxFragmentSize >= 1 && Possible(setup, INITIAL, actions)
    ensures var s := After(setup, INITIAL, actions);
            && EndsAt(Mutexes.FREE, FrameRun(setup, INITIAL, actions, 0), |s.jobs|, FrameHeld(s))
            && EndsAt(Mutexes.FREE, MessageRun(setup, INITIAL, actions, 0), |s.turns|, MessageHeld(s))
  {
    FrameRunFits(setup, INITIAL, actions, Mutexes.FREE, 0);
    MessageRunFits(setup, INITIAL, actions, Mutexes.FREE, 0);
    hide Next;
    hide Enabled;
    hide EndsAt;
  }
}
