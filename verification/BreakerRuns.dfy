/** Runs of the concurrent breaker: one that attains the bound of the half-open
    counter, and when the documented state machine is kept. */
module BreakerRuns {
  import opened CircuitBreaker
  import opened BreakerConcurrency

  // ---------------------------------------------------------------------
  // Building runs
  // ---------------------------------------------------------------------

  predicate IsReset(a: Action) {
    a.Start? && a.call == CallReset
  }

  /** No reset is called, and the clock does not run backwards. */
  ghost predicate Orderly(actions: seq<Action>) {
    && (forall i :: 0 <= i < |actions| ==> !IsReset(actions[i]))
    && (forall i, j :: 0 <= i < j < |actions| && actions[i].Go? && actions[j].Go? ==> actions[i].now <= actions[j].now)
  }

  /** Such a run up to the time `now`. */
  ghost predicate Until(actions: seq<Action>, now: nat) {
    Orderly(actions) && forall i :: 0 <= i < |actions| && actions[i].Go? ==> actions[i].now <= now
  }

  /** One more step of such a run, at the time `now`. */
  lemma {:induction false} Extend(config: Config, n: nat, actions: seq<Action>, a: Action, now: nat) returns (longer: seq<Action>)
    requires Until(actions, now) && !IsReset(a) && (a.Go? ==> a.now == now)
    ensures longer == actions + [a] && Until(longer, now)
    ensures Run(config, Initial(n), longer) == Next(config, Run(config, Initial(n), actions), a)
  {
    longer := actions + [a];
    assert longer[..|actions|] == actions;
  }

  lemma {:induction false} ThenOrderly(actions: seq<Action>, now: nat)
    requires Until(actions, now)
    ensures Orderly(actions)
  {
  }

  lemma {:induction false} Later(actions: seq<Action>, now: nat, later: nat)
    requires Until(actions, now) && now <= later
    ensures Until(actions, later)
  {
  }

  /** The opening time that a transition leaves behind. */
  function OpenedAfter(openedAt: Option<nat>, target: Transition, now: nat): Option<nat> {
    match target
    case ToOpen => Some(now)
    case ToHalfOpen => openedAt
    case _ => None
  }

  /** A transition stored by thread t, from taking the lock to releasing it. */
  function Completed(s: Shared, t: nat, target: Transition, now: nat): Shared
    requires t < |s.threads|
  {
    s.(locked := false,
       state := StateAfter(target),
       failures := if ClearsFailures(target) then 0 else s.failures,
       successes := 0,
       requests := 0,
       openedAt := OpenedAfter(s.openedAt, target, now),
       threads := s.threads[t := if target == ToHalfOpen then Increment else Idle])
  }

  lemma {:induction false} Complete(config: Config, n: nat, actions: seq<Action>, t: nat, target: Transition, now: nat)
    returns (longer: seq<Action>)
    requires Until(actions, now)
    requires var s := Run(config, Initial(n), actions); t < |s.threads| && s.threads[t] == WantLock(target) && !s.locked
    ensures Until(longer, now)
    ensures Run(config, Initial(n), longer) == Completed(Run(config, Initial(n), actions), t, target, now)
  {
    hide Run, Until;
    var s, go := Run(config, Initial(n), actions), Go(t, now);
    longer := Extend(config, n, actions, go, now);
    if ClearsFailures(target) {
      longer := Extend(config, n, longer, go, now);
    }
    var s1 := s.(locked := true, state := StateAfter(target),
                 failures := if ClearsFailures(target) then 0 else s.failures,
                 threads := s.threads[t := StoreSuccesses(target)]);
    assert Run(config, Initial(n), longer) == s1;
    longer := Finish(config, n, longer, t, target, now);
  }

  /** The rest of a transition, once the lock is taken. */
  lemma {:induction false} Finish(config: Config, n: nat, actions: seq<Action>, t: nat, target: Transition, now: nat)
    returns (longer: seq<Action>)
    requires Until(actions, now)
    requires var s := Run(config, Initial(n), actions); t < |s.threads| && s.threads[t] == StoreSuccesses(target) && s.state == StateAfter(target)
    requires ClearsFailures(target) ==> Run(config, Initial(n), actions).failures == 0
    ensures actions <= longer && Until(longer, now)
    ensures Run(config, Initial(n), longer) == Completed(Run(config, Initial(n), actions), t, target, now)
  {
    hide Run, Until;
    var s, go := Run(config, Initial(n), actions), Go(t, now);
    longer := Extend(config, n, actions, go, now);
    longer := Extend(config, n, longer, go, now);
    if target != ToHalfOpen {
      longer := Extend(config, n, longer, go, now);
    }
    var s1 := s.(successes := 0, requests := 0, openedAt := OpenedAfter(s.openedAt, target, now), threads := s.threads[t := Unlock(target)]);
    assert Run(config, Initial(n), longer) == s1;
    longer := Extend(config, n, longer, go, now);
  }

  /** A whole call by an idle thread, as far as its decision. */
  lemma {:induction false} Decide(config: Config, n: nat, actions: seq<Action>, t: nat, call: Call, now: nat) returns (longer: seq<Action>)
    requires Until(actions, now) && call != CallReset
    requires var s := Run(config, Initial(n), actions); t < |s.threads| && s.threads[t] == Idle && !s.locked
    ensures Until(longer, now)
    ensures var s := Run(config, Initial(n), actions);
            var r := Run(config, Initial(n), longer);
            && |r.threads| == |s.threads|
            && r == Decided(config, s.(threads := s.threads[t := Saw(call, s.state)]), t, call, s.state, now)
  {
    hide Run, Until, Decided;
    longer := Extend(config, n, actions, Start(t, call), now);
    longer := Extend(config, n, longer, Go(t, now), now);
  }

  /** Thread 0 alone fails k times, short of the threshold. */
  lemma {:induction false} FailTimes(config: Config, n: nat, k: nat) returns (actions: seq<Action>)
    requires n > 0 && k < AtLeastOne(config.failureThreshold) && config.failureThreshold < U32
    ensures Until(actions, 0) && Run(config, Initial(n), actions) == Initial(n).(failures := k)
  {
    hide Run;
    if k == 0 {
      actions := [];
      EmptyRun(config, Initial(n));
    } else {
      actions := FailTimes(config, n, k - 1);
      actions := Decide(config, n, actions, 0, CallFailure, 0);
      assert Run(config, Initial(n), actions).threads == Initial(n).threads;
    }
  }

  lemma {:induction false} EmptyRun(config: Config, s: Shared)
    ensures Run(config, s, []) == s
  {
  }

  /** The breaker open since time 0, threads 0..p as given, the others idle. */
  function OpenState(config: Config, n: nat, p: nat, pc: Pc): Shared
    requires p <= n
  {
    Shared(Open, false, AtLeastOne(config.failureThreshold), 0, 0, Some(0), Standing(n, p, pc))
  }

  /** Threads 0..k stand at `pc`, the others are idle. */
  function Standing(n: nat, k: nat, pc: Pc): (threads: seq<Pc>)
    requires k <= n
  {
    seq(n, i => if i < k then pc else Idle)
  }

  /** One failure more opens it. */
  lemma {:induction false} BecomeOpen(config: Config, n: nat) returns (actions: seq<Action>)
    requires n > 0 && config.failureThreshold < U32
    ensures Until(actions, 0) && Run(config, Initial(n), actions) == OpenState(config, n, 0, Idle)
  {
    hide Run;
    actions := FailTimes(config, n, AtLeastOne(config.failureThreshold) - 1);
    actions := Decide(config, n, actions, 0, CallFailure, 0);
    assert Run(config, Initial(n), actions).threads == Initial(n).threads[0 := WantLock(ToOpen)];
    actions := Complete(config, n, actions, 0, ToOpen, 0);
    assert Run(config, Initial(n), actions).threads == Standing(n, 0, Idle);
  }

  /** Threads 0..p find the timeout elapsed, all while the breaker is open. */
  lemma {:induction false} AllStale(config: Config, n: nat, p: nat) returns (actions: seq<Action>)
    requires n > 0 && p <= n && config.failureThreshold < U32
    ensures Until(actions, Timeout(config)) && Run(config, Initial(n), actions) == OpenState(config, n, p, WantLock(ToHalfOpen))
  {
    hide Run, Until;
    if p == 0 {
      actions := BecomeOpen(config, n);
      Later(actions, 0, Timeout(config));
      assert Standing(n, 0, Idle) == Standing(n, 0, WantLock(ToHalfOpen));
    } else {
      actions := AllStale(config, n, p - 1);
      actions := Decide(config, n, actions, p - 1, CallExecute, Timeout(config));
      assert Run(config, Initial(n), actions).threads == Standing(n, p, WantLock(ToHalfOpen));
    }
  }

  // ---------------------------------------------------------------------
  // The bound of the counter is attained
  // ---------------------------------------------------------------------

  /** Half-open with k requests counted and threads 0..p pending. */
  function HalfOpenState(config: Config, n: nat, k: nat, p: nat): Shared
    requires p <= n
  {
    Shared(HalfOpen, false, AtLeastOne(config.failureThreshold), 0, k, Some(0), Standing(n, p, Increment))
  }

  /** Thread 0 half-opens the breaker and is about to count itself. */
  lemma {:induction false} BecomeHalfOpen(config: Config, n: nat) returns (actions: seq<Action>)
    requires n > 0 && config.failureThreshold < U32
    ensures Until(actions, Timeout(config)) && Run(config, Initial(n), actions) == HalfOpenState(config, n, 0, 1)
  {
    hide Run, Until;
    actions := AllStale(config, n, 1);
    actions := Complete(config, n, actions, 0, ToHalfOpen, Timeout(config));
    assert Run(config, Initial(n), actions).threads == Standing(n, 1, Increment);
  }

  /** Thread 0 counts itself and passes the check again, k times. */
  lemma {:induction false} FillUp(config: Config, n: nat, k: nat) returns (actions: seq<Action>)
    requires n > 0 && config.failureThreshold < U32
    requires k < AtLeastOne(config.halfOpenMaxRequests) < U32
    ensures Until(actions, Timeout(config)) && Run(config, Initial(n), actions) == HalfOpenState(config, n, k, 1)
  {
    hide Run, Until;
    if k == 0 {
      actions := BecomeHalfOpen(config, n);
    } else {
      actions := FillUp(config, n, k - 1);
      actions := Extend(config, n, actions, Go(0, Timeout(config)), Timeout(config));
      actions := Decide(config, n, actions, 0, CallExecute, Timeout(config));
      assert Run(config, Initial(n), actions).threads == Standing(n, 1, Increment);
    }
  }

  /** Threads 1..p pass the check too while the counter is one below its maximum. */
  lemma {:induction false} AllPassCheck(config: Config, n: nat, p: nat) returns (actions: seq<Action>)
    requires 0 < p <= n && config.failureThreshold < U32
    requires 0 < config.halfOpenMaxRequests < U32
    ensures Until(actions, Timeout(config))
    ensures Run(config, Initial(n), actions) == HalfOpenState(config, n, config.halfOpenMaxRequests - 1, p)
  {
    hide Run, Until;
    if p == 1 {
      actions := FillUp(config, n, config.halfOpenMaxRequests - 1);
    } else {
      actions := AllPassCheck(config, n, p - 1);
      actions := Decide(config, n, actions, p - 1, CallExecute, Timeout(config));
      assert Run(config, Initial(n), actions).threads == Standing(n, p, Increment);
    }
  }

  /** With a maximum of zero nobody passes the check; but of n threads that all
      found the timeout elapsed, k have cleared the counter and are pending. */
  function Clearing(n: nat, k: nat): (threads: seq<Pc>) {
    seq(n, i => if i < k then Increment else WantLock(ToHalfOpen))
  }

  lemma {:induction false} AllClear(config: Config, n: nat, k: nat) returns (actions: seq<Action>)
    requires 0 < k <= n && config.failureThreshold < U32
    ensures Until(actions, Timeout(config))
    ensures Run(config, Initial(n), actions) == HalfOpenState(config, n, 0, 0).(threads := Clearing(n, k))
  {
    hide Run, Until;
    if k == 1 {
      actions := AllStale(config, n, n);
    } else {
      actions := AllClear(config, n, k - 1);
    }
    actions := Complete(config, n, actions, k - 1, ToHalfOpen, Timeout(config));
    assert Run(config, Initial(n), actions).threads == Clearing(n, k);
  }

  /** All pending threads add themselves, last thread first. */
  lemma {:induction false} AllIncrement(config: Config, n: nat, base: nat, start: seq<Action>, p: nat) returns (actions: seq<Action>)
    requires p <= n && base + n < U32 && Until(start, Timeout(config))
    requires Run(config, Initial(n), start) == HalfOpenState(config, n, base, n)
    ensures Until(actions, Timeout(config)) && Run(config, Initial(n), actions) == HalfOpenState(config, n, base + (n - p), p)
    decreases n - p
  {
    hide Run, Until;
    if p == n {
      actions := start;
    } else {
      actions := AllIncrement(config, n, base, start, p + 1);
      actions := Extend(config, n, actions, Go(p, Timeout(config)), Timeout(config));
      assert Run(config, Initial(n), actions).threads == Standing(n, p, Increment);
    }
  }

  /** The bound is tight: some interleaving of N callers, without any reset,
      counts exactly N - 1 requests more than the maximum, or than one if the
      maximum is zero. */
  lemma {:induction false} ConcurrentBoundIsTight(config: Config, n: nat)
    requires n > 0 && config.failureThreshold < U32
    requires AtLeastOne(config.halfOpenMaxRequests) + n - 1 < U32
    ensures exists actions ::
              Orderly(actions) && Run(config, Initial(n), actions).requests == AtLeastOne(config.halfOpenMaxRequests) + n - 1
  {
    hide Run, Until;
    var actions;
    if config.halfOpenMaxRequests == 0 {
      actions := AllClear(config, n, n);
      assert Clearing(n, n) == Standing(n, n, Increment);
      actions := AllIncrement(config, n, 0, actions, 0);
    } else {
      actions := AllPassCheck(config, n, n);
      actions := AllIncrement(config, n, config.halfOpenMaxRequests - 1, actions, 0);
    }
    ThenOrderly(actions, Timeout(config));
    assert Run(config, Initial(n), actions).requests == AtLeastOne(config.halfOpenMaxRequests) + n - 1;
  }

  // ---------------------------------------------------------------------
  // When the documented state machine is kept
  // ---------------------------------------------------------------------

  /** The store by which a reset closes the breaker. */
  predicate ResetStore(s: Shared, a: Action) {
    a.Go? && a.t < |s.threads| && s.threads[a.t] == WantLock(ToReset)
  }

  /** One step after a run follows the documented state machine. */
  ghost predicate KeepsDocumented(config: Config, n: nat, actions: seq<Action>, a: Action) {
    var s := Run(config, Initial(n), actions);
    ResetStore(s, a) || DocumentedEdge(s.state, Next(config, s, a).state)
  }

  /** What a lone thread has seen or decided still fits the state. */
  ghost predicate Lone(s: Shared) {
    && |s.threads| == 1
    && (s.threads[0].Saw? ==> s.threads[0].seen == s.state)
    && (s.threads[0] == WantLock(ToOpen) ==> s.state != Open)
    && (s.threads[0] == WantLock(ToHalfOpen) ==> s.state == Open)
    && (s.threads[0] == WantLock(ToClosed) ==> s.state == HalfOpen)
  }

  lemma {:induction false} LoneStep(config: Config, s: Shared, a: Action)
    requires Lone(s)
    ensures Lone(Next(config, s, a))
    ensures ResetStore(s, a) || DocumentedEdge(s.state, Next(config, s, a).state)
  {
  }

  lemma {:induction false} LoneRun(config: Config, actions: seq<Action>)
    ensures Lone(Run(config, Initial(1), actions))
    decreases |actions|
  {
    if actions != [] {
      LoneRun(config, actions[..|actions| - 1]);
      LoneStep(config, Run(config, Initial(1), actions[..|actions| - 1]), actions[|actions| - 1]);
      hide Next, Lone;
    }
  }

  /** Half-open again for thread 1, long overtaken by thread 0, which has half-
      opened the breaker and reported k successes. */
  function Overtaken(config: Config, n: nat, k: nat): Shared
    requires n >= 2
  {
    Shared(HalfOpen, false, AtLeastOne(config.failureThreshold), k, 1, Some(0), Standing(n, 0, Idle)[1 := WantLock(ToHalfOpen)])
  }

  lemma {:induction false} Overtake(config: Config, n: nat) returns (actions: seq<Action>)
    requires n >= 2 && config.failureThreshold < U32
    ensures Until(actions, Timeout(config)) && Run(config, Initial(n), actions) == Overtaken(config, n, 0)
  {
    hide Run, Until;
    actions := AllStale(config, n, 2);
    actions := Complete(config, n, actions, 0, ToHalfOpen, Timeout(config));
    actions := Extend(config, n, actions, Go(0, Timeout(config)), Timeout(config));
    assert Run(config, Initial(n), actions).threads == Overtaken(config, n, 0).threads;
  }

  lemma {:induction false} SucceedTimes(config: Config, n: nat, k: nat) returns (actions: seq<Action>)
    requires n >= 2 && config.failureThreshold < U32 && config.successThreshold < U32
    requires k < AtLeastOne(config.successThreshold)
    ensures Until(actions, Timeout(config)) && Run(config, Initial(n), actions) == Overtaken(config, n, k)
  {
    hide Run, Until;
    if k == 0 {
      actions := Overtake(config, n);
    } else {
      actions := SucceedTimes(config, n, k - 1);
      actions := Decide(config, n, actions, 0, CallSuccess, Timeout(config));
      assert Run(config, Initial(n), actions).threads == Overtaken(config, n, k).threads;
    }
  }

  /** With two callers or more, under any configuration, a run without any reset
      takes a closed breaker to half-open in one step. */
  lemma {:induction false} UndocumentedEdge(config: Config, n: nat) returns (actions: seq<Action>, a: Action)
    requires n >= 2 && config.failureThreshold < U32 && config.successThreshold < U32
    ensures Orderly(actions + [a])
    ensures Run(config, Initial(n), actions).state == Closed
    ensures Next(config, Run(config, Initial(n), actions), a).state == HalfOpen
    ensures !KeepsDocumented(config, n, actions, a)
  {
    hide Run, Until;
    actions := SucceedTimes(config, n, AtLeastOne(config.successThreshold) - 1);
    actions := Decide(config, n, actions, 0, CallSuccess, Timeout(config));
    assert Run(config, Initial(n), actions).threads[0] == WantLock(ToClosed);
    actions := Complete(config, n, actions, 0, ToClosed, Timeout(config));
    a := Go(1, Timeout(config));
    assert Run(config, Initial(n), actions).threads[1] == WantLock(ToHalfOpen);
    var longer := Extend(config, n, actions, a, Timeout(config));
    assert Orderly(longer) by { ThenOrderly(longer, Timeout(config)); }
  }

  /** Apart from the store of a reset, every step of every run follows the
      documented state machine exactly when there is one caller only. */
  lemma {:induction false} DocumentedExactly(config: Config, n: nat)
    requires n > 0 && config.failureThreshold < U32 && config.successThreshold < U32
    ensures (forall actions, a :: KeepsDocumented(config, n, actions, a)) <==> n == 1
    ensures (forall actions, a :: Orderly(actions + [a]) ==> KeepsDocumented(config, n, actions, a)) <==> n == 1
  {
    hide Run, Next, Orderly;
    if n == 1 {
      forall actions, a ensures KeepsDocumented(config, n, actions, a) {
        LoneRun(config, actions);
        LoneStep(config, Run(config, Initial(1), actions), a);
      }
    } else {
      var actions, a := UndocumentedEdge(config, n);
      assert Orderly(actions + [a]);
    }
  }
}
