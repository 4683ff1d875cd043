/** `Mutex`: a lock handed on through a chain of promises, and its behaviour over every run of lock and unlock calls. */
module Mutexes {
  import opened Bytes

  /** Keys are numbered by `lock` call, and each stands for its own promise too. `last` is `#lock`, `waitFor[k]` the promise
      call `k` awaits, `unlocked` the keys whose promise is resolved; `granted` lists the calls that have resumed. */
  datatype State = State(last: Option<nat>, keys: seq<nat>, waitFor: seq<Option<nat>>, unlocked: set<nat>, granted: seq<nat>)

  const FREE := State(None, [], [], {}, [])

  function LockState(s: State): State {
    var key := |s.waitFor|;
    s.(last := Some(key), keys := s.keys + [key], waitFor := s.waitFor + [s.last])
  }

  function UnlockState(s: State, key: nat): State {
    var keys := if s.keys == [] then [] else s.keys[1..];
    s.(unlocked := s.unlocked + {key}, keys := keys, last := if keys == [] then None else s.last)
  }

  predicate Settled(s: State, promise: Option<nat>) {
    promise.None? || promise.value in s.unlocked
  }

  predicate Held(s: State, key: nat) {
    key in s.granted && key !in s.unlocked
  }

  class Mutex {
    var last: Option<nat>
    var keys: seq<nat>
    var waitFor: seq<Option<nat>>
    var unlocked: set<nat>
    var granted: seq<nat>

    function Abs(): State
      reads this
    {
      State(last, keys, waitFor, unlocked, granted)
    }

    constructor ()
      ensures Abs() == FREE
    {
      last, keys, waitFor, unlocked, granted := None, [], [], {}, [];
    }

    /** The synchronous part of `lock`, up to its `await`. */
    method Lock() returns (key: nat)
      modifies this
      ensures Abs() == LockState(old(Abs())) && key == |old(waitFor)|
    {
      key := |waitFor|;
      var previous := last;
      last := Some(key);
      keys := keys + [key];
      waitFor := waitFor + [previous];
    }

    /** The rest of `lock`, once the awaited promise is resolved. */
    method Resume(key: nat)
      requires key < |waitFor| && key !in granted && Settled(Abs(), waitFor[key])
      modifies `granted
      ensures Abs() == old(Abs()).(granted := old(granted) + [key])
    {
      granted := granted + [key];
    }

    /** `key.unlock`; the error is its exception. */
    method Unlock(key: nat) returns (alreadyUnlocked: bool)
      modifies this
      ensures alreadyUnlocked == (key in old(unlocked))
      ensures Abs() == if alreadyUnlocked then old(Abs()) else UnlockState(old(Abs()), key)
    {
      if key in unlocked {
        return true;
      }
      alreadyUnlocked := false;
      unlocked := unlocked + {key};
      if keys != [] {
        keys := keys[1..];
      }
      if keys == [] {
        last := None;
      }
    }

    /** `locked` */
    function Locked(): nat
      reads this
    {
      |keys|
    }
  }

  // ---- runs

  datatype Step = Lock | Resume(key: nat) | Unlock(key: nat)

  /** Calls may come at any time; a call resumes once its promise is resolved; only holders unlock, and only once. */
  predicate Enabled(s: State, step: Step) {
    match step
    case Lock => true
    case Resume(key) => key < |s.waitFor| && key !in s.granted && Settled(s, s.waitFor[key])
    case Unlock(key) => Held(s, key)
  }

  function Next(s: State, step: Step): State {
    match step
    case Lock => LockState(s)
    case Resume(key) => s.(granted := s.granted + [key])
    case Unlock(key) => UnlockState(s, key)
  }

  predicate Possible(s: State, steps: seq<Step>)
    decreases |steps|
  {
    steps == [] || (Enabled(s, steps[0]) && Possible(Next(s, steps[0]), steps[1..]))
  }

  function After(s: State, steps: seq<Step>): State
    decreases |steps|
  {
    if steps == [] then s else After(Next(s, steps[0]), steps[1..])
  }

  /** The first `released` keys are unlocked, the rest wait in order, the first of them perhaps granted. */
  ghost predicate InOrder(s: State, released: nat) {
    && released + |s.keys| == |s.waitFor|
    && (forall i :: 0 <= i < |s.keys| ==> s.keys[i] == released + i)
    && (forall k :: k in s.unlocked <==> 0 <= k < released)
    && s.last == (if s.keys == [] then None else Some(|s.waitFor| - 1))
    && (forall k :: released < k < |s.waitFor| ==> s.waitFor[k] == Some(k - 1))
    && (s.keys != [] ==> Settled(s, s.waitFor[released]))
    && released <= |s.granted| <= released + 1 && |s.granted| <= |s.waitFor|
    && (forall i :: 0 <= i < |s.granted| ==> s.granted[i] == i)
  }

  /** The calls that can resume: none but that of the first key. */
  lemma OnlyFirstResumes(s: State, released: nat, key: nat)
    requires InOrder(s, released)
    ensures key < |s.granted| ==> key in s.granted
    ensures released < key < |s.waitFor| ==> !Settled(s, s.waitFor[key])
  {
    if key < |s.granted| {
      assert s.granted[key] == key;
    }
  }

  lemma StepInOrder(s: State, released: nat, step: Step) returns (released': nat)
    requires InOrder(s, released) && Enabled(s, step)
    ensures InOrder(Next(s, step), released')
  {
    released' := if step.Unlock? then released + 1 else released;
    match step
    case Lock =>
    case Resume(key) =>
      OnlyFirstResumes(s, released, key);
    case Unlock(key) =>
      assert key == released;
      var t := Next(s, step);
      if t.keys != [] {
        assert s.keys[1] == released + 1;
        assert s.waitFor[released + 1] == Some(released);
      }
  }

  lemma {:induction false} RunInOrder(s: State, released: nat, steps: seq<Step>) returns (released': nat)
    requires InOrder(s, released) && Possible(s, steps)
    ensures InOrder(After(s, steps), released')
    decreases |steps|
  {
    hide InOrder;
    if steps == [] {
      released' := released;
    } else {
      var next := StepInOrder(s, released, steps[0]);
      released' := RunInOrder(Next(s, steps[0]), next, steps[1..]);
    }
  }

  lemma FreeIsInOrder()
    ensures InOrder(FREE, 0)
  {
  }

  // ---- what every run keeps

  /** At most one key is granted and not released; it is the first key. */
  lemma MutualExclusion(steps: seq<Step>, a: nat, b: nat)
    requires Possible(FREE, steps) && Held(After(FREE, steps), a) && Held(After(FREE, steps), b)
    ensures a == b && After(FREE, steps).keys != [] && After(FREE, steps).keys[0] == a
  {
    FreeIsInOrder();
    var released := RunInOrder(FREE, 0, steps);
  }

  /** Grants follow the order of the `lock` calls without gaps: the `i`-th call is the `i`-th granted. */
  lemma GrantsFollowCalls(steps: seq<Step>)
    requires Possible(FREE, steps)
    ensures var s := After(FREE, steps);
            |s.granted| <= |s.waitFor| && forall i :: 0 <= i < |s.granted| ==> s.granted[i] == i
  {
    FreeIsInOrder();
    var released := RunInOrder(FREE, 0, steps);
  }

  /** `#keys` holds exactly the unreleased keys in call order; `#lock` belongs to the last of them. */
  lemma KeysAreUnreleased(steps: seq<Step>)
    requires Possible(FREE, steps)
    ensures var s := After(FREE, steps);
            && (forall k: nat :: k in s.keys <==> k < |s.waitFor| && k !in s.unlocked)
            && (forall i, j :: 0 <= i < j < |s.keys| ==> s.keys[i] < s.keys[j])
            && s.last == if s.keys == [] then None else Some(s.keys[|s.keys| - 1])
  {
    FreeIsInOrder();
    var released := RunInOrder(FREE, 0, steps);
    var s := After(FREE, steps);
    forall k: nat | k < |s.waitFor| && k !in s.unlocked
      ensures k in s.keys
    {
      assert s.keys[k - released] == k;
    }
  }

  /** No deadlock and no overtaking: the only call that can resume is that of the first key, and it can unless it has. */
  lemma FirstIsNext(steps: seq<Step>, key: nat)
    requires Possible(FREE, steps)
    ensures var s := After(FREE, steps);
            Enabled(s, Resume(key)) <==> s.keys != [] && key == s.keys[0] && !Held(s, key)
  {
    FreeIsInOrder();
    var released := RunInOrder(FREE, 0, steps);
    var s := After(FREE, steps);
    OnlyFirstResumes(s, released, key);
  }

  /** Unlocking takes the first key off, whoever calls: it takes off the caller's own exactly when that is the first. */
  lemma UnlockTakesFirst(steps: seq<Step>, key: nat)
    requires Possible(FREE, steps) && key in After(FREE, steps).keys
    ensures var s := After(FREE, steps);
            key !in UnlockState(s, key).keys <==> key == s.keys[0]
  {
    FreeIsInOrder();
    var released := RunInOrder(FREE, 0, steps);
    var s := After(FREE, steps);
    var i :| 0 <= i < |s.keys| && s.keys[i] == key;
    if i > 0 {
      assert s.keys[1..][i - 1] == key;
    }
  }

  // ---- the mutex as a queue

  /** A run seen from outside: who waits in which order, and whether the first holds the lock. */
  datatype Queue = Queue(waiting: seq<nat>, held: bool)

  function Seen(s: State): Queue {
    Queue(s.keys, s.keys != [] && Held(s, s.keys[0]))
  }

  /** Every step is a step of a queue: join at the end, be served at the front, leave from the front. */
  lemma ActsAsQueue(steps: seq<Step>, step: Step)
    requires Possible(FREE, steps) && Enabled(After(FREE, steps), step)
    ensures var s := After(FREE, steps);
            var q, q' := Seen(s), Seen(Next(s, step));
            match step
            case Lock => q' == Queue(q.waiting + [|s.waitFor|], q.held)
            case Resume(key) => q.waiting != [] && !q.held && key == q.waiting[0] && q' == Queue(q.waiting, true)
            case Unlock(key) => q.held && key == q.waiting[0] && q' == Queue(q.waiting[1..], false)
  {
    FreeIsInOrder();
    var released := RunInOrder(FREE, 0, steps);
    var s := After(FREE, steps);
    var released' := StepInOrder(s, released, step);
    if step.Resume? {
      FirstIsNext(steps, step.key);
    } else if step.Unlock? {
      MutualExclusion(steps, step.key, step.key);
      var t := Next(s, step);
      if t.keys != [] {
        assert t.keys[0] == s.keys[1] == released + 1;
      }
    }
  }
}
