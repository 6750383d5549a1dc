/** When an opened breaker keeps callers out for a whole timeout. */
module BreakerCoolDown {
  import opened Clock
  import opened CircuitBreaker
  import opened BreakerConcurrency
  import opened BreakerRuns

  /** Step i of a run opens the breaker. */
  ghost predicate OpensAt(config: Config, n: nat, actions: seq<Action>, i: nat) {
    && i < |actions| && actions[i].Go?
    && Run(config, Initial(n), actions[..i]).state != Open
    && Next(config, Run(config, Initial(n), actions[..i]), actions[i]).state == Open
  }

  /** Step j of a run admits a call. */
  ghost predicate AdmitsAt(config: Config, n: nat, actions: seq<Action>, j: nat) {
    j < |actions| && AdmitsCall(config, Run(config, Initial(n), actions[..j]), actions[j])
  }

  /** Once the breaker has opened, no call is admitted within the timeout. */
  ghost predicate CoolsDown(config: Config, n: nat, actions: seq<Action>) {
    forall i: nat, j: nat :: i < j && OpensAt(config, n, actions, i) && AdmitsAt(config, n, actions, j) ==>
      actions[i].now + Timeout(config) <= actions[j].now
  }

  // ---------------------------------------------------------------------
  // One caller
  // ---------------------------------------------------------------------

  /** The lone caller opened the breaker at `since` or later and has not found
      the timeout elapsed. */
  ghost predicate Cooling(s: Shared, since: nat) {
    && |s.threads| == 1 && s.state == Open
    && (|| s.threads[0] in {StoreSuccesses(ToOpen), StoreRequests(ToOpen), StoreOpenedAt(ToOpen)}
        || (&& (s.threads[0] == Idle || s.threads[0] == Unlock(ToOpen) || (s.threads[0].Saw? && s.threads[0].seen == Open))
            && s.openedAt.Some? && since <= s.openedAt.value))
  }

  lemma {:induction false} CoolingStep(config: Config, s: Shared, a: Action, since: nat)
    requires Cooling(s, since) && !IsReset(a)
    requires a.Go? ==> since <= a.now < since + Timeout(config)
    ensures Cooling(Next(config, s, a), since) && !AdmitsCall(config, s, a)
  {
  }

  lemma {:induction false} CoolingStarts(config: Config, s: Shared, a: Action, since: nat)
    requires Lone(s) && !IsReset(a) && s.state != Open && Next(config, s, a).state == Open
    ensures Cooling(Next(config, s, a), since)
  {
  }

  /** The lone caller cools down until the time of step k, a timeout not yet
      over. */
  lemma {:induction false} CoolingRun(config: Config, actions: seq<Action>, i: nat, k: nat)
    requires Orderly(actions) && OpensAt(config, 1, actions, i) && i < k < |actions|
    requires actions[k].Go? && actions[k].now < actions[i].now + Timeout(config)
    ensures Cooling(Run(config, Initial(1), actions[..k]), actions[i].now)
  {
    CoolingUpTo(config, actions, i, k, k);
  }

  lemma {:induction false} CoolingUpTo(config: Config, actions: seq<Action>, i: nat, j: nat, k: nat)
    requires Orderly(actions) && OpensAt(config, 1, actions, i) && i < j <= k < |actions|
    requires actions[k].Go? && actions[k].now < actions[i].now + Timeout(config)
    ensures Cooling(Run(config, Initial(1), actions[..j]), actions[i].now)
    decreases j
  {
    hide Next, Cooling, Lone;
    assert actions[..j][..j - 1] == actions[..j - 1];
    if j == i + 1 {
      LoneRun(config, actions[..i]);
      CoolingStarts(config, Run(config, Initial(1), actions[..i]), actions[i], actions[i].now);
    } else {
      CoolingUpTo(config, actions, i, j - 1, k);
      CoolingStep(config, Run(config, Initial(1), actions[..j - 1]), actions[j - 1], actions[i].now);
    }
  }

  lemma {:induction false} LoneCoolsDown(config: Config, actions: seq<Action>)
    requires Orderly(actions)
    ensures CoolsDown(config, 1, actions)
  {
    hide Next, Run, Cooling;
    forall i: nat, j: nat | i < j && OpensAt(config, 1, actions, i) && AdmitsAt(config, 1, actions, j)
      ensures actions[i].now + Timeout(config) <= actions[j].now
    {
      if actions[j].now < actions[i].now + Timeout(config) {
        CoolingRun(config, actions, i, j);
        CoolingStep(config, Run(config, Initial(1), actions[..j]), actions[j], actions[i].now);
      }
    }
  }

  // ---------------------------------------------------------------------
  // Two callers
  // ---------------------------------------------------------------------

  /** Thread 0 has half-opened the breaker and reported a failure; thread 1 still
      means to half-open it. */
  function FailedProbe(config: Config, n: nat): Shared
    requires n >= 2
  {
    Shared(HalfOpen, false, AtLeastOne(config.failureThreshold), 0, 1, Some(0),
           Standing(n, 1, WantLock(ToOpen))[1 := WantLock(ToHalfOpen)])
  }

  lemma {:induction false} ProbeFails(config: Config, n: nat) returns (actions: seq<Action>)
    requires n >= 2 && config.failureThreshold < U32
    ensures Until(actions, Timeout(config)) && Run(config, Initial(n), actions) == FailedProbe(config, n)
  {
    hide Run, Until;
    actions := Overtake(config, n);
    actions := Decide(config, n, actions, 0, CallFailure, Timeout(config));
    assert Run(config, Initial(n), actions).threads == FailedProbe(config, n).threads;
  }

  /** Thread 0 opens the breaker again, and thread 1 is admitted at that time. */
  lemma {:induction false} AdmittedAtOnce(config: Config, n: nat) returns (actions: seq<Action>, i: nat)
    requires n >= 2 && config.failureThreshold < U32
    ensures Orderly(actions) && i + 1 < |actions|
    ensures OpensAt(config, n, actions, i) && AdmitsAt(config, n, actions, |actions| - 1)
    ensures actions[i].Go? && actions[i].now == actions[|actions| - 1].now == Timeout(config)
  {
    hide Run, Until;
    var now := Timeout(config);
    var probe := ProbeFails(config, n);
    i := |probe|;
    var reopened := Extend(config, n, probe, Go(0, now), now);
    var stored := Finish(config, n, reopened, 0, ToOpen, now);
    assert Run(config, Initial(n), stored).threads[1] == WantLock(ToHalfOpen);
    var locked := Extend(config, n, stored, Go(1, now), now);
    var cleared := Extend(config, n, locked, Go(1, now), now);
    assert Run(config, Initial(n), cleared).threads[1] == StoreRequests(ToHalfOpen);
    actions := Extend(config, n, cleared, Go(1, now), now);
    ThenOrderly(actions, now);
    assert reopened <= actions;
    assert actions[..i] == probe && actions[i] == Go(0, now);
    assert actions[..|actions| - 1] == cleared;
  }

  /** In every run without a reset and with a clock that never runs backwards, no
      call is admitted within the timeout of an opening, exactly when there is one
      caller only or no timeout at all. */
  lemma {:induction false} CoolDownExactly(config: Config, n: nat)
    requires n > 0 && config.failureThreshold < U32
    ensures (forall actions :: Orderly(actions) ==> CoolsDown(config, n, actions)) <==> n == 1 || Timeout(config) == 0
  {
    hide Run, Next;
    if n == 1 {
      forall actions | Orderly(actions) ensures CoolsDown(config, n, actions) {
        LoneCoolsDown(config, actions);
      }
    } else if Timeout(config) > 0 {
      var actions, i := AdmittedAtOnce(config, n);
      assert !CoolsDown(config, n, actions);
    }
  }
}
