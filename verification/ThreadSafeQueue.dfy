/** The blocking queue of src/queue-inl.h as a protocol of atomic steps.

  Any number of threads call push and blocking_pop.  The mutex and the condition variable are
  explicit: testing the predicate and going to sleep happen while holding the mutex, going to
  sleep releases it atomically, notify_one happens after the mutex is released, and a sleeping
  thread may also wake spuriously. */
module ThreadSafeQueue {
  import opened Utils

  /** Where a thread is. */
  datatype Pc<T> =
    | Idle                  // outside the queue's methods
    | PushLock(item: T)     // push: waiting for the mutex
    | PushHold(item: T)     // push: holds the mutex
    | PushUnlock            // push: item enqueued, mutex still held
    | PushNotify            // push: mutex released, notify_one still to come
    | PopLock               // blocking_pop: waiting for the mutex, on entry or after waking
    | PopHold               // blocking_pop: holds the mutex, about to test the predicate
    | Asleep                // blocking_pop: blocked on the condition variable
    | PopUnlock(ret: T)     // blocking_pop: item taken, mutex still held

  /** `pushed` and `popped` record the items in the order of their enqueue and dequeue under the
      mutex; the two counters record the calls made. */
  datatype State<T> = State(
    queue: seq<T>, owner: Option<nat>, threads: seq<Pc<T>>,
    pushed: seq<T>, popped: seq<T>, pushCalls: nat, popCalls: nat)

  datatype Step<T> =
    | CallPush(t: nat, item: T)
    | CallPop(t: nat)
    | Lock(t: nat)
    | Enqueue(t: nat)
    | UnlockAfterPush(t: nat)
    | NotifyOne(t: nat, woken: Option<nat>)
    | Sleep(t: nat)
    | Take(t: nat)
    | Return(t: nat)
    | WakeSpuriously(t: nat)

  predicate Holds<T>(pc: Pc<T>) { pc.PushHold? || pc.PushUnlock? || pc.PopHold? || pc.PopUnlock? }

  predicate SomeoneSleeps<T>(ts: seq<Pc<T>>) { exists i :: 0 <= i < |ts| && ts[i].Asleep? }

  predicate Enabled<T>(s: State<T>, step: Step<T>)
  {
    && step.t < |s.threads|
    && var pc := s.threads[step.t];
       match step
       case CallPush(_, _) => pc.Idle?
       case CallPop(_) => pc.Idle?
       case Lock(_) => (pc.PushLock? || pc.PopLock?) && s.owner.None?
       case Enqueue(_) => pc.PushHold?
       case UnlockAfterPush(_) => pc.PushUnlock?
       case NotifyOne(_, woken) =>
         && pc.PushNotify?
         && (if woken.Some? then woken.value < |s.threads| && s.threads[woken.value].Asleep?
             else !SomeoneSleeps(s.threads))
       case Sleep(_) => pc.PopHold? && s.queue == []
       case Take(_) => pc.PopHold? && s.queue != []
       case Return(_) => pc.PopUnlock?
       case WakeSpuriously(_) => pc.Asleep?
  }

  function Apply<T>(s: State<T>, step: Step<T>): State<T>
    requires Enabled(s, step)
  {
    var t := step.t;
    match step
    case CallPush(_, item) => s.(threads := s.threads[t := PushLock(item)], pushCalls := s.pushCalls + 1)
    case CallPop(_) => s.(threads := s.threads[t := PopLock], popCalls := s.popCalls + 1)
    case Lock(_) =>
      s.(threads := s.threads[t := if s.threads[t].PopLock? then PopHold else PushHold(s.threads[t].item)],
         owner := Some(t))
    case Enqueue(_) =>
      s.(threads := s.threads[t := PushUnlock],
         queue := s.queue + [s.threads[t].item], pushed := s.pushed + [s.threads[t].item])
    case UnlockAfterPush(_) => s.(threads := s.threads[t := PushNotify], owner := None)
    case NotifyOne(_, woken) =>
      var after := s.threads[t := Idle];
      s.(threads := if woken.Some? then after[woken.value := PopLock] else after)
    case Sleep(_) => s.(threads := s.threads[t := Asleep], owner := None)
    case Take(_) =>
      s.(threads := s.threads[t := PopUnlock(s.queue[0])],
         queue := s.queue[1..], popped := s.popped + [s.queue[0]])
    case Return(_) => s.(threads := s.threads[t := Idle], owner := None)
    case WakeSpuriously(_) => s.(threads := s.threads[t := PopLock])
  }

  function Init<T>(numThreads: nat): State<T>
  {
    State([], None, seq(numThreads, _ => Idle), [], [], 0, 0)
  }

  predicate ValidRun<T>(s: State<T>, run: seq<Step<T>>)
    decreases |run|
  {
    run == [] || (Enabled(s, run[0]) && ValidRun(Apply(s, run[0]), run[1..]))
  }

  function After<T>(s: State<T>, run: seq<Step<T>>): State<T>
    requires ValidRun(s, run)
    decreases |run|
  {
    if run == [] then s else After(Apply(s, run[0]), run[1..])
  }

  // ---------------------------------------------------------------- counting threads

  function Sum<T>(f: Pc<T> -> nat, ts: seq<Pc<T>>): nat
  {
    if ts == [] then 0 else f(ts[0]) + Sum(f, ts[1..])
  }

  function PendingNotify<T>(pc: Pc<T>): nat { if pc.PushUnlock? || pc.PushNotify? then 1 else 0 }

  function AwakeConsumer<T>(pc: Pc<T>): nat { if pc.PopLock? || pc.PopHold? then 1 else 0 }

  function Sleeper<T>(pc: Pc<T>): nat { if pc.Asleep? then 1 else 0 }

  function UnfinishedPush<T>(pc: Pc<T>): nat { if pc.PushLock? || pc.PushHold? then 1 else 0 }

  /** How many more steps a thread can take by itself; waking a sleeper costs the notifier one more. */
  function StepsLeft<T>(pc: Pc<T>): nat
  {
    match pc
    case Idle => 0
    case Asleep => 0
    case PopUnlock(_) => 1
    case PopHold => 2
    case PopLock => 3
    case PushNotify => 4
    case PushUnlock => 5
    case PushHold(_) => 6
    case PushLock(_) => 7
  }

  lemma {:induction false} SumUpdate<T>(f: Pc<T> -> nat, ts: seq<Pc<T>>, i: nat, pc: Pc<T>)
    requires i < |ts|
    ensures Sum(f, ts[i := pc]) == Sum(f, ts) - f(ts[i]) + f(pc)
  {
    if i == 0 {
      assert ts[0 := pc][1..] == ts[1..];
    } else {
      SumUpdate(f, ts[1..], i - 1, pc);
      assert ts[i := pc][1..] == ts[1..][i - 1 := pc];
    }
  }

  lemma {:induction false} SumZero<T>(f: Pc<T> -> nat, ts: seq<Pc<T>>)
    ensures Sum(f, ts) == 0 <==> forall i :: 0 <= i < |ts| ==> f(ts[i]) == 0
  {
    if ts != [] {
      SumZero(f, ts[1..]);
      assert (forall i :: 0 <= i < |ts| ==> f(ts[i]) == 0) ==>
        forall i :: 0 <= i < |ts[1..]| ==> f(ts[1..][i]) == 0;
      if f(ts[0]) == 0 && Sum(f, ts[1..]) == 0 {
        forall i | 0 <= i < |ts| ensures f(ts[i]) == 0 {
          assert i > 0 ==> ts[i] == ts[1..][i - 1];
        }
      }
    }
  }

  /** What a step does to a count: its thread's share changes, and a woken sleeper's too. */
  lemma SumStep<T>(f: Pc<T> -> nat, s: State<T>, step: Step<T>)
    requires Enabled(s, step)
    ensures var s' := Apply(s, step);
      Sum(f, s'.threads) == Sum(f, s.threads) - f(s.threads[step.t]) + f(s'.threads[step.t])
        + if step.NotifyOne? && step.woken.Some? then f(PopLock) - f(Asleep) else 0
  {
    var s' := Apply(s, step);
    if step.NotifyOne? && step.woken.Some? {
      SumUpdate(f, s.threads, step.t, Idle);
      SumUpdate(f, s.threads[step.t := Idle], step.woken.value, PopLock);
    } else {
      SumUpdate(f, s.threads, step.t, s'.threads[step.t]);
    }
  }

  // ---------------------------------------------------------------- the invariant

  /** The mutex: the owner is the one thread inside a critical section. */
  ghost predicate MutexInv<T>(s: State<T>)
  {
    && (s.owner.Some? ==> s.owner.value < |s.threads|)
    && forall t :: 0 <= t < |s.threads| ==> (Holds(s.threads[t]) <==> s.owner == Some(t))
  }

  /** While someone sleeps, every queued item is matched by a notification still to come or by a
      consumer that is awake inside blocking_pop. */
  ghost predicate WakeupInv<T>(s: State<T>)
  {
    Sum(Sleeper, s.threads) > 0 ==>
      |s.queue| <= Sum(PendingNotify, s.threads) + Sum(AwakeConsumer, s.threads)
  }

  /** Items leave in the order they came, and every call is accounted for. */
  ghost predicate FlowInv<T>(s: State<T>)
  {
    && s.popped + s.queue == s.pushed
    && s.pushCalls == |s.pushed| + Sum(UnfinishedPush, s.threads)
    && s.popCalls == |s.popped| + Sum(AwakeConsumer, s.threads) + Sum(Sleeper, s.threads)
  }

  /** A consumer about to return holds the item dequeued last. */
  ghost predicate ReturnInv<T>(s: State<T>)
  {
    forall t :: 0 <= t < |s.threads| && s.threads[t].PopUnlock? ==>
      s.popped != [] && s.threads[t].ret == s.popped[|s.popped| - 1]
  }

  ghost predicate Inv<T>(s: State<T>) { MutexInv(s) && WakeupInv(s) && FlowInv(s) && ReturnInv(s) }

  lemma InitInv<T>(numThreads: nat)
    ensures Inv(Init<T>(numThreads))
  {
    var ts := Init<T>(numThreads).threads;
    SumZero(Sleeper, ts);
    SumZero(AwakeConsumer, ts);
    SumZero(UnfinishedPush, ts);
  }

  lemma StepKeepsMutex<T>(s: State<T>, step: Step<T>)
    requires MutexInv(s) && Enabled(s, step)
    ensures MutexInv(Apply(s, step))
  {
    assert Holds(s.threads[step.t]) <==> s.owner == Some(step.t);
  }

  lemma StepKeepsWakeup<T>(s: State<T>, step: Step<T>)
    requires WakeupInv(s) && Enabled(s, step)
    ensures WakeupInv(Apply(s, step))
  {
    SumStep(Sleeper, s, step);
    SumStep(PendingNotify, s, step);
    SumStep(AwakeConsumer, s, step);
    SumZero(Sleeper, s.threads);
  }

  lemma StepKeepsFlow<T>(s: State<T>, step: Step<T>)
    requires FlowInv(s) && Enabled(s, step)
    ensures FlowInv(Apply(s, step))
  {
    SumStep(Sleeper, s, step);
    SumStep(AwakeConsumer, s, step);
    SumStep(UnfinishedPush, s, step);
  }

  lemma StepKeepsReturn<T>(s: State<T>, step: Step<T>)
    requires MutexInv(s) && ReturnInv(s) && Enabled(s, step)
    ensures ReturnInv(Apply(s, step))
  {
    if step.Take? {
      assert forall t :: 0 <= t < |s.threads| && t != step.t ==> !Holds(s.threads[t]);
    }
  }

  lemma {:induction false} RunKeepsInv<T>(s: State<T>, run: seq<Step<T>>)
    requires Inv(s) && ValidRun(s, run)
    ensures Inv(After(s, run))
    decreases |run|
  {
    if run != [] {
      StepKeepsMutex(s, run[0]);
      StepKeepsWakeup(s, run[0]);
      StepKeepsFlow(s, run[0]);
      StepKeepsReturn(s, run[0]);
      RunKeepsInv(Apply(s, run[0]), run[1..]);
    }
  }

  // ---------------------------------------------------------------- main results

  /** At most one thread is inside a critical section, in every reachable state. */
  lemma MutualExclusion<T>(numThreads: nat, run: seq<Step<T>>, t: nat, u: nat)
    requires ValidRun(Init(numThreads), run)
    requires var s := After(Init(numThreads), run);
      t < |s.threads| && u < |s.threads| && Holds(s.threads[t]) && Holds(s.threads[u])
    ensures t == u
  {
    InitInv<T>(numThreads);
    RunKeepsInv(Init(numThreads), run);
  }

  /** No lost wakeup: whatever the interleaving, while a consumer sleeps every queued item is matched
      by a notification still to come or a consumer awake inside blocking_pop; so no state has an
      item queued, the consumers asleep and no notification to come. */
  lemma NoLostWakeup<T>(numThreads: nat, run: seq<Step<T>>)
    requires ValidRun(Init(numThreads), run)
    ensures WakeupInv(After(Init(numThreads), run))
    ensures var s := After(Init(numThreads), run);
      SomeoneSleeps(s.threads) && s.queue != [] ==>
        exists t :: 0 <= t < |s.threads|
          && (s.threads[t].PushUnlock? || s.threads[t].PushNotify? || s.threads[t].PopLock? || s.threads[t].PopHold?)
  {
    InitInv<T>(numThreads);
    RunKeepsInv(Init(numThreads), run);
    var s := After(Init(numThreads), run);
    SumZero(Sleeper, s.threads);
    SumZero(PendingNotify, s.threads);
    SumZero(AwakeConsumer, s.threads);
  }

  /** First in, first out: the items popped so far followed by those queued are the items pushed,
      and a consumer that is about to return hands out exactly the item it dequeued. */
  lemma FirstInFirstOut<T>(numThreads: nat, run: seq<Step<T>>)
    requires ValidRun(Init(numThreads), run)
    ensures var s := After(Init(numThreads), run);
      && s.popped + s.queue == s.pushed
      && forall t :: 0 <= t < |s.threads| && s.threads[t].PopUnlock? ==>
           0 < |s.popped| <= |s.pushed| && s.threads[t].ret == s.pushed[|s.popped| - 1]
  {
    InitInv<T>(numThreads);
    RunKeepsInv(Init(numThreads), run);
    var s := After(Init(numThreads), run);
    assert s.popped != [] ==> (s.popped + s.queue)[|s.popped| - 1] == s.popped[|s.popped| - 1];
  }

  predicate Internal<T>(step: Step<T>)
  {
    !step.CallPush? && !step.CallPop? && !step.WakeSpuriously?
  }

  /** No thread can go on without a new call or a spurious wakeup. */
  ghost predicate Quiescent<T(!new)>(s: State<T>)
  {
    forall step: Step<T> :: Internal(step) ==> !Enabled(s, step)
  }

  /** A state where the threads have come to rest: everyone is outside or asleep, and items are
      queued only if nobody sleeps. */
  ghost predicate AtRest<T>(s: State<T>)
  {
    && (forall t :: 0 <= t < |s.threads| ==> s.threads[t].Idle? || s.threads[t].Asleep?)
    && (s.queue == [] || !SomeoneSleeps(s.threads))
  }

  lemma HolderCanMove<T(!new)>(s: State<T>, t: nat)
    requires Quiescent(s) && t < |s.threads|
    ensures !Holds(s.threads[t])
  {
    assert !Enabled(s, Enqueue(t));
    assert !Enabled(s, UnlockAfterPush(t));
    assert !Enabled(s, Sleep(t));
    assert !Enabled(s, Take(t));
    assert !Enabled(s, Return(t));
  }

  /** A thread that is neither outside nor asleep can take a step, or the mutex owner can. */
  lemma ThreadCanMove<T(!new)>(s: State<T>, t: nat)
    requires Inv(s) && Quiescent(s) && t < |s.threads|
    ensures s.threads[t].Idle? || s.threads[t].Asleep?
  {
    HolderCanMove(s, t);
    if s.owner.Some? {
      HolderCanMove(s, s.owner.value);
    }
    assert !Enabled(s, Lock(t));
    assert !Enabled(s, NotifyOne(t, None));
    forall w: nat | w < |s.threads| && s.threads[t].PushNotify? ensures !s.threads[w].Asleep? {
      assert !Enabled(s, NotifyOne(t, Some(w)));
    }
  }

  lemma QuiescentIsAtRest<T(!new)>(s: State<T>)
    requires Inv(s) && Quiescent(s)
    ensures AtRest(s)
  {
    forall t | 0 <= t < |s.threads| ensures s.threads[t].Idle? || s.threads[t].Asleep? {
      ThreadCanMove(s, t);
    }
    SumZero(Sleeper, s.threads);
    SumZero(PendingNotify, s.threads);
    SumZero(AwakeConsumer, s.threads);
  }

  /** Once the threads have come to rest, exactly as many items have been handed out as there were
      pushes or pops, whichever is fewer, and they are the first ones pushed. */
  lemma RestDelivers<T(!new)>(numThreads: nat, run: seq<Step<T>>)
    requires ValidRun(Init(numThreads), run) && Quiescent(After(Init<T>(numThreads), run))
    ensures var s := After(Init(numThreads), run);
      && |s.pushed| == s.pushCalls
      && |s.popped| == (if s.pushCalls <= s.popCalls then s.pushCalls else s.popCalls)
      && s.popped == s.pushed[..|s.popped|]
  {
    InitInv<T>(numThreads);
    RunKeepsInv(Init(numThreads), run);
    var s := After(Init(numThreads), run);
    QuiescentIsAtRest(s);
    SumZero(UnfinishedPush, s.threads);
    SumZero(AwakeConsumer, s.threads);
    SumZero(Sleeper, s.threads);
  }

  /** The credit of internal steps that a call or a spurious wakeup brings. */
  function CreditOf<T>(step: Step<T>): nat
  {
    match step case CallPush(_, _) => 7 case CallPop(_) => 3 case WakeSpuriously(_) => 3 case _ => 0
  }

  function Credit<T>(run: seq<Step<T>>): nat
  {
    if run == [] then 0 else CreditOf(run[0]) + Credit(run[1..])
  }

  function InternalSteps<T>(run: seq<Step<T>>): nat
  {
    if run == [] then 0 else (if Internal(run[0]) then 1 else 0) + InternalSteps(run[1..])
  }

  lemma StepCosts<T>(s: State<T>, step: Step<T>)
    requires Enabled(s, step)
    ensures Sum(StepsLeft, Apply(s, step).threads) + (if Internal(step) then 1 else 0)
         <= Sum(StepsLeft, s.threads) + CreditOf(step)
  {
    SumStep(StepsLeft, s, step);
  }

  /** The steps threads take by themselves are bounded by what the calls and spurious wakeups brought
      in. */
  lemma {:induction false} RunIsBounded<T>(s: State<T>, run: seq<Step<T>>)
    requires ValidRun(s, run)
    ensures InternalSteps(run) + Sum(StepsLeft, After(s, run).threads) <= Sum(StepsLeft, s.threads) + Credit(run)
    decreases |run|
  {
    if run != [] {
      StepCosts(s, run[0]);
      RunIsBounded(Apply(s, run[0]), run[1..]);
    }
  }

  lemma {:induction false} OnlyInternal<T>(run: seq<Step<T>>)
    requires forall i :: 0 <= i < |run| ==> Internal(run[i])
    ensures InternalSteps(run) == |run| && Credit(run) == 0
  {
    if run != [] { OnlyInternal(run[1..]); }
  }

  /** From every state the threads can come to rest by themselves. */
  lemma {:induction false} RestIsReachable<T(!new)>(s: State<T>) returns (run: seq<Step<T>>)
    ensures ValidRun(s, run) && (forall i :: 0 <= i < |run| ==> Internal(run[i])) && Quiescent(After(s, run))
    decreases Sum(StepsLeft, s.threads)
  {
    if Quiescent(s) {
      run := [];
    } else {
      var step: Step<T> :| Internal(step) && Enabled(s, step);
      StepCosts(s, step);
      var rest := RestIsReachable(Apply(s, step));
      run := [step] + rest;
      assert run[1..] == rest;
    }
  }

  /** Progress: the threads can come to rest by themselves, and however they go about it a run of
      their own steps is at most as long as the steps they had left, so every run that stops calling
      comes to rest. */
  lemma ComesToRest<T(!new)>(s: State<T>, own: seq<Step<T>>) returns (more: seq<Step<T>>)
    requires ValidRun(s, own) && forall i :: 0 <= i < |own| ==> Internal(own[i])
    ensures |own| <= Sum(StepsLeft, s.threads)
    ensures ValidRun(After(s, own), more) && (forall i :: 0 <= i < |more| ==> Internal(more[i]))
    ensures Quiescent(After(After(s, own), more))
  {
    RunIsBounded(s, own);
    OnlyInternal(own);
    more := RestIsReachable(After(s, own));
  }

  // ---------------------------------------------------------------- calls can be made and answered

  lemma FirstStep<T>(s: State<T>, step: Step<T>, rest: seq<Step<T>>)
    requires Enabled(s, step) && ValidRun(Apply(s, step), rest)
    ensures ValidRun(s, [step] + rest) && After(s, [step] + rest) == After(Apply(s, step), rest)
  {
    assert ([step] + rest)[1..] == rest;
  }

  /** Thread t's push after it has been called for, up to the notification. */
  function Pushed<T>(s: State<T>, t: nat, item: T): State<T>
    requires t < |s.threads|
  {
    s.(threads := s.threads[t := PushNotify], queue := s.queue + [item], pushed := s.pushed + [item],
       pushCalls := s.pushCalls + 1)
  }

  /** A thread that is outside can push when the mutex is free. */
  lemma PushReachesNotify<T>(s: State<T>, t: nat, item: T) returns (run: seq<Step<T>>)
    requires t < |s.threads| && s.threads[t].Idle? && s.owner.None?
    ensures ValidRun(s, run) && After(s, run) == Pushed(s, t, item)
  {
    var s1 := Apply(s, CallPush(t, item));
    var s2 := Apply(s1, Lock(t));
    var s3 := Apply(s2, Enqueue(t));
    var s4 := Apply(s3, UnlockAfterPush(t));
    assert s4 == Pushed(s, t, item);
    FirstStep(s3, UnlockAfterPush(t), []);
    FirstStep(s2, Enqueue(t), [UnlockAfterPush(t)] + []);
    FirstStep(s1, Lock(t), [Enqueue(t)] + ([UnlockAfterPush(t)] + []));
    FirstStep(s, CallPush(t, item), [Lock(t)] + ([Enqueue(t)] + ([UnlockAfterPush(t)] + [])));
    run := [CallPush(t, item)] + ([Lock(t)] + ([Enqueue(t)] + ([UnlockAfterPush(t)] + [])));
  }

  /** A thread inside blocking_pop that waits for a free mutex takes the first item and returns. */
  lemma TakeIsPossible<T>(s: State<T>, u: nat) returns (run: seq<Step<T>>)
    requires u < |s.threads| && s.threads[u].PopLock? && s.owner.None? && s.queue != []
    ensures ValidRun(s, run)
    ensures After(s, run) ==
      s.(threads := s.threads[u := Idle], queue := s.queue[1..], popped := s.popped + [s.queue[0]])
  {
    var s1 := Apply(s, Lock(u));
    var s2 := Apply(s1, Take(u));
    FirstStep(s2, Return(u), []);
    FirstStep(s1, Take(u), [Return(u)] + []);
    FirstStep(s, Lock(u), [Take(u)] + ([Return(u)] + []));
    run := [Lock(u)] + ([Take(u)] + ([Return(u)] + []));
    assert After(s, run).threads == s.threads[u := Idle];
  }

  lemma {:induction false} RunConcat<T>(s: State<T>, a: seq<Step<T>>, b: seq<Step<T>>)
    requires ValidRun(s, a) && ValidRun(After(s, a), b)
    ensures ValidRun(s, a + b) && After(s, a + b) == After(After(s, a), b)
    decreases |a|
  {
    if a == [] {
      assert a + b == b;
    } else {
      RunConcat(Apply(s, a[0]), a[1..], b);
      assert a + b == [a[0]] + (a[1..] + b);
      FirstStep(s, a[0], a[1..] + b);
    }
  }

  /** With nobody asleep, a thread that is outside can push an item to an empty queue, and then one that
      is outside can pop it, with nothing else changed. */
  lemma PushThenPop<T>(s: State<T>, t: nat, u: nat, item: T) returns (run: seq<Step<T>>)
    requires t < |s.threads| && u < |s.threads| && s.threads[t].Idle? && s.threads[u].Idle?
    requires s.owner.None? && s.queue == [] && !SomeoneSleeps(s.threads)
    ensures ValidRun(s, run)
    ensures After(s, run) ==
      s.(pushed := s.pushed + [item], popped := s.popped + [item],
         pushCalls := s.pushCalls + 1, popCalls := s.popCalls + 1)
  {
    var push := PushReachesNotify(s, t, item);
    var s1 := Pushed(s, t, item);
    var s2 := Apply(s1, NotifyOne(t, None));
    var s3 := Apply(s2, CallPop(u));
    var take := TakeIsPossible(s3, u);
    FirstStep(s2, CallPop(u), take);
    FirstStep(s1, NotifyOne(t, None), [CallPop(u)] + take);
    RunConcat(s, push, [NotifyOne(t, None)] + ([CallPop(u)] + take));
    run := push + ([NotifyOne(t, None)] + ([CallPop(u)] + take));
    assert After(s, run).threads == s.threads;
  }

  /** A thread that pops from an empty queue falls asleep. */
  lemma PopSleeps<T>(s: State<T>, u: nat) returns (run: seq<Step<T>>)
    requires u < |s.threads| && s.threads[u].Idle? && s.owner.None? && s.queue == []
    ensures ValidRun(s, run)
    ensures After(s, run) == s.(threads := s.threads[u := Asleep], popCalls := s.popCalls + 1)
  {
    var s1 := Apply(s, CallPop(u));
    var s2 := Apply(s1, Lock(u));
    FirstStep(s2, Sleep(u), []);
    FirstStep(s1, Lock(u), [Sleep(u)] + []);
    FirstStep(s, CallPop(u), [Lock(u)] + ([Sleep(u)] + []));
    run := [CallPop(u)] + ([Lock(u)] + ([Sleep(u)] + []));
    assert After(s, run).threads == s.threads[u := Asleep];
  }

  /** A sleeping consumer can wake without a push, and then waits for the mutex. */
  lemma SleeperMayWake<T>(s: State<T>, u: nat)
    requires u < |s.threads| && s.threads[u].Asleep?
    ensures ValidRun(s, [WakeSpuriously(u)])
    ensures After(s, [WakeSpuriously(u)]) == s.(threads := s.threads[u := PopLock])
  {
    var step: Step<T> := WakeSpuriously(u);
    FirstStep(s, step, []);
    assert [step] + [] == [step];
  }

  /** A sleeping consumer can be woken by a push and gets the item. */
  lemma PushServesSleeper<T>(s: State<T>, t: nat, u: nat, item: T) returns (run: seq<Step<T>>)
    requires t < |s.threads| && u < |s.threads| && s.threads[t].Idle? && s.threads[u].Asleep?
    requires s.owner.None? && s.queue == []
    ensures ValidRun(s, run)
    ensures After(s, run) ==
      s.(threads := s.threads[u := Idle], pushed := s.pushed + [item], popped := s.popped + [item],
         pushCalls := s.pushCalls + 1)
  {
    var push := PushReachesNotify(s, t, item);
    var s1 := Pushed(s, t, item);
    var s2 := Apply(s1, NotifyOne(t, Some(u)));
    var take := TakeIsPossible(s2, u);
    FirstStep(s1, NotifyOne(t, Some(u)), take);
    RunConcat(s, push, [NotifyOne(t, Some(u))] + take);
    run := push + ([NotifyOne(t, Some(u))] + take);
    assert After(s, run).threads == s.threads[u := Idle];
  }
}
