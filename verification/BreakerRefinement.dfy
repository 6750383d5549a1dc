/** The concurrent breaker against the sequential one: a call that no other
    thread interrupts has exactly the sequential effect. */
module BreakerRefinement {
  import opened CircuitBreaker
  import opened BreakerConcurrency
  import opened BreakerRuns
  import opened BreakerPhases

  /** The shared fields as a sequential breaker; nothing reads the time of the
      last failure. */
  function Sequential(s: Shared): Breaker {
    Breaker(s.state, s.failures, s.successes, s.requests, 0, s.openedAt)
  }

  function OpOf(call: Call, now: nat): Op {
    match call
    case CallExecute => Execute(now)
    case CallSuccess => Success(now)
    case CallFailure => Failure(now, 0)
    case CallReset => Reset(now)
  }

  /** Only thread t moves, at the time `now`. */
  ghost predicate Alone(actions: seq<Action>, t: nat, now: nat) {
    forall i :: 0 <= i < |actions| ==> actions[i].t == t && (actions[i].Go? ==> actions[i].now == now)
  }

  lemma {:induction false} AloneOnward(config: Config, s: Shared, actions: seq<Action>, a: Action, t: nat, now: nat)
    returns (longer: seq<Action>)
    requires Alone(actions, t, now) && a.t == t && (a.Go? ==> a.now == now)
    ensures Alone(longer, t, now)
    ensures Run(config, s, longer) == Next(config, Run(config, s, actions), a)
    ensures Admissions(config, s, longer) ==
            Admissions(config, s, actions) + One(AdmitsCall(config, Run(config, s, actions), a))
  {
    hide Next, AdmitsCall;
    longer := actions + [a];
    assert longer[..|actions|] == actions;
  }

  /** A whole transition; half-opening admits the request that causes it. */
  lemma {:induction false} AloneTransition(config: Config, s: Shared, actions: seq<Action>, t: nat, target: Transition, now: nat)
    returns (longer: seq<Action>)
    requires Alone(actions, t, now) && t < |s.threads|
    requires var r := Run(config, s, actions); r.threads == s.threads[t := WantLock(target)] && !r.locked
    ensures Alone(longer, t, now)
    ensures Run(config, s, longer) == Completed(Run(config, s, actions), t, target, now)
    ensures Admissions(config, s, longer) == Admissions(config, s, actions) + One(target == ToHalfOpen)
  {
    hide Run, Admissions, Alone;
    var go := Go(t, now);
    longer := AloneOnward(config, s, actions, go, t, now);
    if ClearsFailures(target) {
      longer := AloneOnward(config, s, longer, go, t, now);
    }
    assert Run(config, s, longer) == Locked(Run(config, s, actions), t, target);
    longer := AloneStores(config, s, longer, t, target, now);
  }

  /** The lock taken, the failures cleared if the transition clears them. */
  function Locked(r: Shared, t: nat, target: Transition): Shared
    requires t < |r.threads|
  {
    r.(locked := true, state := StateAfter(target), failures := if ClearsFailures(target) then 0 else r.failures,
       threads := r.threads[t := StoreSuccesses(target)])
  }

  lemma {:induction false} AloneStores(config: Config, s: Shared, actions: seq<Action>, t: nat, target: Transition, now: nat)
    returns (longer: seq<Action>)
    requires Alone(actions, t, now) && t < |s.threads|
    requires Run(config, s, actions).threads[t] == StoreSuccesses(target) && Run(config, s, actions).state == StateAfter(target)
    requires ClearsFailures(target) ==> Run(config, s, actions).failures == 0
    ensures Alone(longer, t, now)
    ensures Run(config, s, longer) == Completed(Run(config, s, actions), t, target, now)
    ensures Admissions(config, s, longer) == Admissions(config, s, actions) + One(target == ToHalfOpen)
  {
    hide Run, Admissions, Alone;
    var go := Go(t, now);
    longer := AloneOnward(config, s, actions, go, t, now);
    longer := AloneOnward(config, s, longer, go, t, now);
    if target != ToHalfOpen {
      longer := AloneOnward(config, s, longer, go, t, now);
    }
    var r := Run(config, s, actions);
    assert Run(config, s, longer) ==
           r.(successes := 0, requests := 0, openedAt := OpenedAfter(r.openedAt, target, now), threads := r.threads[t := Unlock(target)]);
    longer := AloneOnward(config, s, longer, go, t, now);
  }

  /** The target of the transition that a sequential operation makes, if any. */
  function TargetOf(config: Config, b: Breaker, op: Op): Option<Transition> {
    if op.Reset? then Some(ToReset)
    else if op.Execute? then if b.state == Open && TimeoutElapsed(config, b, op.now) then Some(ToHalfOpen) else None
    else if op.Failure? then
      if b.state == HalfOpen || (b.state == Closed && b.failures + 1 >= config.failureThreshold) then Some(ToOpen) else None
    else if b.state == HalfOpen && b.successes + 1 >= config.successThreshold then Some(ToClosed) else None
  }

  /** From an idle thread to its decision: the transition, the pending request,
      or the end of the call. */
  lemma {:induction false} AloneDecision(config: Config, s: Shared, t: nat, call: Call, now: nat) returns (actions: seq<Action>)
    requires t < |s.threads| && s.threads[t] == Idle && !s.locked
    requires s.failures + 1 < U32 && s.successes + 1 < U32 && s.requests + 1 < U32
    ensures Alone(actions, t, now)
    ensures var target := TargetOf(config, Sequential(s), OpOf(call, now));
            var r := Run(config, s, actions);
            var before, after := Sequential(s), Step(config, Sequential(s), OpOf(call, now));
            && r.threads[t := Idle] == s.threads && !r.locked
            && r.threads == s.threads[t := if target.Some? then WantLock(target.value)
                                           else if call == CallExecute && s.state == HalfOpen && Admits(config, before, OpOf(call, now)) then Increment
                                           else Idle]
            && (target.None? && !(call == CallExecute && s.state == HalfOpen) ==> Sequential(r) == after.(lastFailureTime := 0))
            && (call == CallExecute || call == CallReset ==> Sequential(r) == before)
            && (target == Some(ToOpen) && s.state == Closed ==> Sequential(r) == before.(failures := before.failures + 1))
            && (target == Some(ToOpen) && s.state != Closed ==> Sequential(r) == before)
            && (target == Some(ToClosed) ==> Sequential(r) == before.(successes := before.successes + 1))
            && Admissions(config, s, actions) ==
               One(call == CallExecute && s.state != Open && Admits(config, before, OpOf(call, now)))
  {
    hide Run, Admissions, Alone;
    actions := [];
    NothingDone(config, s, t, now);
    actions := AloneOnward(config, s, actions, Start(t, call), t, now);
    assert s.threads[t := Idle] == s.threads;
    if call != CallReset {
      assert Run(config, s, actions) == s.(threads := s.threads[t := Saw(call, s.state)]);
      actions := AloneOnward(config, s, actions, Go(t, now), t, now);
    }
  }

  lemma {:induction false} NothingDone(config: Config, s: Shared, t: nat, now: nat)
    ensures Run(config, s, []) == s && Admissions(config, s, []) == 0 && Alone([], t, now)
  {
  }

  /** A call by a thread that runs alone does what the sequential breaker does:
      the same new state of all fields, and the same verdict. */
  lemma {:induction false} UninterruptedCall(config: Config, s: Shared, t: nat, call: Call, now: nat) returns (actions: seq<Action>)
    requires t < |s.threads| && s.threads[t] == Idle && !s.locked
    requires s.failures + 1 < U32 && s.successes + 1 < U32 && s.requests + 1 < U32
    ensures Alone(actions, t, now)
    ensures var r := Run(config, s, actions);
            && r.threads == s.threads && !r.locked
            && Sequential(r) == Step(config, Sequential(s), OpOf(call, now)).(lastFailureTime := 0)
    ensures Admissions(config, s, actions) == One(Admits(config, Sequential(s), OpOf(call, now)))
  {
    hide Run, Admissions, Alone;
    var b, op := Sequential(s), OpOf(call, now);
    var target := TargetOf(config, b, op);
    actions := AloneDecision(config, s, t, call, now);
    if target.Some? {
      actions := AloneTransition(config, s, actions, t, target.value, now);
    }
    if call == CallExecute && Admits(config, b, op) && s.state != Closed {
      actions := AloneOnward(config, s, actions, Go(t, now), t, now);
    }
  }
}
