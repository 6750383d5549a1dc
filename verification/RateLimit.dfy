/** The fixed-window rate limiter. One call is one atomic step with a single
    reading of a clock that never runs backwards; the wall clock that only
    feeds `resetAt` is independent of it and unconstrained. */
module RateLimit {
  import opened Clock

  datatype Tier = Standard | Professional | Enterprise

  datatype LimitType = Rfq | Quote | Api

  function LimitFor(limitType: LimitType, tier: Tier): (limit: nat)
    ensures limit >= 60
  {
    match (limitType, tier)
    case (Rfq, Standard) => 60
    case (Rfq, Professional) => 300
    case (Rfq, Enterprise) => 1000
    case (Quote, Standard) => 300
    case (Quote, Professional) => 1500
    case (Quote, Enterprise) => 5000
    case (Api, Standard) => 600
    case (Api, Professional) => 3000
    case (Api, Enterprise) => 10000
  }

  /** Every tier may ask for five quotes, and call ten times, per request. */
  lemma {:induction false} LimitTable(tier: Tier)
    ensures LimitFor(Rfq, tier) == match tier case Standard => 60 case Professional => 300 case Enterprise => 1000
    ensures LimitFor(Quote, tier) == 5 * LimitFor(Rfq, tier)
    ensures LimitFor(Api, tier) == 10 * LimitFor(Rfq, tier)
  {
  }

  const U32_MAX: nat := 0xFFFF_FFFF
  const TICKS_PER_SECOND: nat := 1_000_000_000

  /** `window` is the window duration in clock ticks (nanoseconds). */
  datatype Config = Config(window: nat, enabled: bool)

  datatype Key = Key(client: string, limitType: LimitType)

  datatype Entry = Entry(count: nat, windowStart: nat, resetAt: nat)

  type Counters = map<Key, Entry>

  datatype Info = Info(limit: nat, remaining: nat, resetAt: nat)

  datatype Reply = Allowed(info: Info) | LimitExceeded(limit: nat, remaining: nat, resetAt: nat)

  predicate Live(config: Config, entry: Entry, now: nat) {
    Elapsed(now, entry.windowStart) < config.window
  }

  /** The wall-clock second at which a window opened now ends; a wall clock
      before the epoch gives zero. */
  function ResetAt(config: Config, wall: int): nat {
    if wall < 0 then 0 else wall + config.window / TICKS_PER_SECOND
  }

  // ---------------------------------------------------------------------
  // The operations as functions of the counters
  // ---------------------------------------------------------------------

  /** The entry a check works on: the stored one while it lives, else a new one. */
  function OpenEntry(config: Config, counters: Counters, key: Key, now: nat, wall: int): Entry {
    if key in counters && Live(config, counters[key], now) then counters[key]
    else Entry(0, now, ResetAt(config, wall))
  }

  function Checked(config: Config, counters: Counters, key: Key, tier: Tier, now: nat, wall: int): (r: (Counters, Reply)) {
    if !config.enabled then (counters, Allowed(Info(U32_MAX, U32_MAX, 0)))
    else
      var limit := LimitFor(key.limitType, tier);
      var entry := OpenEntry(config, counters, key, now, wall);
      if entry.count >= limit then
        (counters[key := entry], LimitExceeded(limit, 0, entry.resetAt))
      else
        (counters[key := entry.(count := entry.count + 1)],
         Allowed(Info(limit, limit - (entry.count + 1), entry.resetAt)))
  }

  function InfoOf(config: Config, counters: Counters, key: Key, tier: Tier, now: nat, wall: int): Info {
    if !config.enabled then Info(U32_MAX, U32_MAX, 0)
    else
      var limit := LimitFor(key.limitType, tier);
      if key in counters && Live(config, counters[key], now) then
        var count := counters[key].count;
        Info(limit, if count <= limit then limit - count else 0, counters[key].resetAt)
      else Info(limit, limit, ResetAt(config, wall))
  }

  function Cleaned(config: Config, counters: Counters, now: nat): Counters {
    map key | key in counters && Live(config, counters[key], now) :: counters[key]
  }

  class InMemoryRateLimiter {
    const config: Config
    var counters: Counters

    constructor (config: Config)
      ensures this.config == config && counters == map[]
    {
      this.config := config;
      counters := map[];
    }

    method CheckAndIncrement(client: string, tier: Tier, limitType: LimitType, now: nat, wall: int) returns (reply: Reply)
      modifies this
      ensures (counters, reply) == Checked(config, old(counters), Key(client, limitType), tier, now, wall)
    {
      if !config.enabled {
        return Allowed(Info(U32_MAX, U32_MAX, 0));
      }
      var limit := LimitFor(limitType, tier);
      var key := Key(client, limitType);
      var resetAt := ResetAt(config, wall);
      if key !in counters {
        counters := counters[key := Entry(0, now, resetAt)];
      }
      if Elapsed(now, counters[key].windowStart) >= config.window {
        counters := counters[key := Entry(0, now, resetAt)];
      }
      assert counters == old(counters)[key := OpenEntry(config, old(counters), key, now, wall)];
      if counters[key].count >= limit {
        return LimitExceeded(limit, 0, counters[key].resetAt);
      }
      var entry := counters[key].(count := counters[key].count + 1);
      counters := counters[key := entry];
      assert counters == old(counters)[key := entry];
      return Allowed(Info(limit, limit - entry.count, entry.resetAt));
    }

    method GetInfo(client: string, tier: Tier, limitType: LimitType, now: nat, wall: int) returns (info: Info)
      ensures info == InfoOf(config, counters, Key(client, limitType), tier, now, wall)
    {
      if !config.enabled {
        return Info(U32_MAX, U32_MAX, 0);
      }
      var limit := LimitFor(limitType, tier);
      var key := Key(client, limitType);
      if key in counters && Elapsed(now, counters[key].windowStart) < config.window {
        var count := counters[key].count;
        return Info(limit, if count <= limit then limit - count else 0, counters[key].resetAt);
      }
      return Info(limit, limit, ResetAt(config, wall));
    }

    method CleanupExpired(now: nat)
      modifies this
      ensures counters == Cleaned(config, old(counters), now)
    {
      counters := map key | key in counters && Elapsed(now, counters[key].windowStart) < config.window :: counters[key];
    }
  }

  /** `get_info` predicts the next check: it is allowed exactly when some quota
      remains, and then leaves one less. */
  lemma {:induction false} InfoPredictsCheck(config: Config, counters: Counters, key: Key, tier: Tier, now: nat, wall: int)
    requires config.enabled
    ensures var info := InfoOf(config, counters, key, tier, now, wall);
            var (after, reply) := Checked(config, counters, key, tier, now, wall);
            && (reply.Allowed? <==> info.remaining > 0)
            && (reply.Allowed? ==> reply.info == info.(remaining := info.remaining - 1))
            && (config.window > 0 ==>
                  InfoOf(config, after, key, tier, now, wall) ==
                  info.(remaining := if reply.Allowed? then info.remaining - 1 else 0))
  {
  }

  // ---------------------------------------------------------------------
  // Runs
  // ---------------------------------------------------------------------

  datatype Call =
    | Check(key: Key, tier: Tier, now: nat, wall: int)
    | GetInfo(key: Key, tier: Tier, now: nat, wall: int)
    | Cleanup(now: nat)

  datatype Observation = CheckResult(reply: Reply) | InfoResult(info: Info)

  function Apply(config: Config, counters: Counters, call: Call): Counters {
    match call
    case Check(key, tier, now, wall) => Checked(config, counters, key, tier, now, wall).0
    case GetInfo(_, _, _, _) => counters
    case Cleanup(now) => Cleaned(config, counters, now)
  }

  function Observe(config: Config, counters: Counters, call: Call): (o: Observation)
    requires !call.Cleanup?
  {
    match call
    case Check(key, tier, now, wall) => CheckResult(Checked(config, counters, key, tier, now, wall).1)
    case GetInfo(key, tier, now, wall) => InfoResult(InfoOf(config, counters, key, tier, now, wall))
  }

  /** The counters after a run that starts from none. */
  function After(config: Config, calls: seq<Call>): Counters {
    if calls == [] then map[]
    else Apply(config, After(config, calls[..|calls| - 1]), calls[|calls| - 1])
  }

  /** Everything the clients see of a run. */
  function Observations(config: Config, calls: seq<Call>): seq<Observation> {
    if calls == [] then []
    else
      var init, last := calls[..|calls| - 1], calls[|calls| - 1];
      if last.Cleanup? then Observations(config, init)
      else Observations(config, init) + [Observe(config, After(config, init), last)]
  }

  ghost predicate ClockRuns(calls: seq<Call>) {
    forall i, j :: 0 <= i < j < |calls| ==> calls[i].now <= calls[j].now
  }

  ghost predicate IsAccepted(config: Config, counters: Counters, call: Call, key: Key) {
    call.Check? && call.key == key && Observe(config, counters, call).reply.Allowed?
  }

  /** How many requests on `key` the run accepted at time t or later. */
  ghost function AcceptedFrom(config: Config, calls: seq<Call>, key: Key, t: nat): nat {
    if calls == [] then 0
    else
      var init, last := calls[..|calls| - 1], calls[|calls| - 1];
      AcceptedFrom(config, init, key, t)
      + if IsAccepted(config, After(config, init), last, key) && last.now >= t then 1 else 0
  }

  /** How many it accepted at the times from t up to, not including, u. */
  ghost function AcceptedIn(config: Config, calls: seq<Call>, key: Key, t: nat, u: nat): int {
    AcceptedFrom(config, calls, key, t) - AcceptedFrom(config, calls, key, u)
  }

  /** How many it accepted within one window length from t on. */
  ghost function WindowCount(config: Config, calls: seq<Call>, key: Key, t: nat): int {
    AcceptedIn(config, calls, key, t, t + config.window)
  }

  // ---------------------------------------------------------------------
  // cleanup_expired cannot be observed
  // ---------------------------------------------------------------------

  function WithoutCleanups(calls: seq<Call>): (r: seq<Call>) {
    if calls == [] then []
    else
      var init, last := WithoutCleanups(calls[..|calls| - 1]), calls[|calls| - 1];
      if last.Cleanup? then init else init + [last]
  }

  /** The counters agree on every entry that still lives in either. */
  ghost predicate SameLive(config: Config, a: Counters, b: Counters, now: nat) {
    forall key ::
      (key in a && Live(config, a[key], now)) || (key in b && Live(config, b[key], now)) ==>
        key in a && key in b && a[key] == b[key]
  }

  lemma {:induction false} SameLiveStep(config: Config, a: Counters, b: Counters, before: nat, call: Call)
    requires SameLive(config, a, b, before) && before <= call.now
    ensures call.Cleanup? ==> SameLive(config, Apply(config, a, call), b, call.now)
    ensures !call.Cleanup? ==> SameLive(config, Apply(config, a, call), Apply(config, b, call), call.now)
    ensures !call.Cleanup? ==> Observe(config, a, call) == Observe(config, b, call)
  {
    hide LimitFor, ResetAt;
    assert forall e: Entry :: Live(config, e, call.now) ==> Live(config, e, before);
    assert SameLive(config, a, b, call.now);
  }

  lemma {:induction false} CleanupsErased(config: Config, calls: seq<Call>, key: Key, t: nat)
    requires ClockRuns(calls)
    ensures SameLive(config, After(config, calls), After(config, WithoutCleanups(calls)),
                     if calls == [] then 0 else calls[|calls| - 1].now)
    ensures Observations(config, calls) == Observations(config, WithoutCleanups(calls))
    ensures AcceptedFrom(config, calls, key, t) == AcceptedFrom(config, WithoutCleanups(calls), key, t)
    decreases |calls|
  {
    if calls != [] {
      var init, last := calls[..|calls| - 1], calls[|calls| - 1];
      CleanupsErased(config, init, key, t);
      SameLiveStep(config, After(config, init), After(config, WithoutCleanups(init)),
                   if init == [] then 0 else init[|init| - 1].now, last);
      assert (WithoutCleanups(init) + [last])[..|WithoutCleanups(init)|] == WithoutCleanups(init);
    }
  }

  /** Two runs that differ only in when, and how often, expired entries are
      cleaned up show their clients the same replies. */
  lemma {:induction false} CleanupUnobservable(config: Config, calls: seq<Call>, other: seq<Call>)
    requires ClockRuns(calls) && ClockRuns(other) && WithoutCleanups(calls) == WithoutCleanups(other)
    ensures Observations(config, calls) == Observations(config, other)
  {
    var key := Key("", Rfq);
    CleanupsErased(config, calls, key, 0);
    CleanupsErased(config, other, key, 0);
  }

  // ---------------------------------------------------------------------
  // How many requests get through
  // ---------------------------------------------------------------------

  /** No check on `key` ever uses a limit above `most`. */
  ghost predicate LimitsAtMost(calls: seq<Call>, key: Key, most: nat) {
    forall i :: 0 <= i < |calls| && calls[i].Check? && calls[i].key == key ==>
      LimitFor(key.limitType, calls[i].tier) <= most
  }

  ghost predicate NoCleanups(calls: seq<Call>) {
    forall i :: 0 <= i < |calls| ==> !calls[i].Cleanup?
  }

  lemma {:induction false} AcceptedAntitone(config: Config, calls: seq<Call>, key: Key, t: nat, u: nat)
    requires t <= u
    ensures AcceptedFrom(config, calls, key, t) >= AcceptedFrom(config, calls, key, u)
    decreases |calls|
  {
    if calls != [] {
      AcceptedAntitone(config, calls[..|calls| - 1], key, t, u);
    }
  }

  lemma {:induction false} NothingFromTheFuture(config: Config, calls: seq<Call>, key: Key, t: nat)
    requires forall i :: 0 <= i < |calls| ==> calls[i].now < t
    ensures AcceptedFrom(config, calls, key, t) == 0
    decreases |calls|
  {
    if calls != [] {
      NothingFromTheFuture(config, calls[..|calls| - 1], key, t);
    }
  }

  /** What the entry of a key records about the run, while nothing is cleaned up. */
  ghost predicate EntryRecords(config: Config, calls: seq<Call>, key: Key, most: nat)
    requires key in After(config, calls)
  {
    var entry := After(config, calls)[key];
    var s := entry.windowStart;
    && 1 <= entry.count <= most
    && AcceptedFrom(config, calls, key, s) == entry.count
    && AcceptedFrom(config, calls, key, s + 1) < entry.count
    && AcceptedFrom(config, calls, key, s + config.window) == 0
    && (forall x: nat :: x <= s < x + config.window ==> AcceptedFrom(config, calls, key, x) < most + entry.count)
  }

  ghost predicate RunRecords(config: Config, calls: seq<Call>, key: Key, most: nat) {
    && (key in After(config, calls) ==> EntryRecords(config, calls, key, most))
    && (key !in After(config, calls) ==> AcceptedFrom(config, calls, key, 0) == 0)
    && (forall x: nat :: WindowCount(config, calls, key, x) < 2 * most)
  }

  /** A call that is not an accepted check on `key` changes neither its entry
      nor its counts. */
  lemma {:induction false} OtherCallStep(config: Config, calls: seq<Call>, last: Call, key: Key, x: nat)
    requires !last.Cleanup? && config.enabled && !IsAccepted(config, After(config, calls), last, key)
    ensures var before, after := After(config, calls), After(config, calls + [last]);
            (key in after <==> key in before) && (key in after ==> after[key] == before[key])
    ensures AcceptedFrom(config, calls + [last], key, x) == AcceptedFrom(config, calls, key, x)
  {
    assert (calls + [last])[..|calls|] == calls;
  }

  lemma {:induction false} OtherCallKeeps(config: Config, calls: seq<Call>, last: Call, key: Key, most: nat)
    requires RunRecords(config, calls, key, most) && !last.Cleanup? && config.enabled
    requires !IsAccepted(config, After(config, calls), last, key)
    ensures RunRecords(config, calls + [last], key, most)
  {
    hide After, AcceptedFrom, IsAccepted;
    forall x: nat {
      OtherCallStep(config, calls, last, key, x);
    }
    assert forall x: nat :: WindowCount(config, calls + [last], key, x) == WindowCount(config, calls, key, x);
  }

  lemma {:induction false} AcceptedStep(config: Config, calls: seq<Call>, last: Call, key: Key, x: nat)
    requires config.enabled && IsAccepted(config, After(config, calls), last, key)
    ensures AcceptedFrom(config, calls + [last], key, x) ==
            AcceptedFrom(config, calls, key, x) + if last.now >= x then 1 else 0
    ensures var before, after := After(config, calls), After(config, calls + [last]);
            && key in after
            && after[key] == (if key in before && Live(config, before[key], last.now)
                              then before[key].(count := before[key].count + 1)
                              else Entry(1, last.now, ResetAt(config, last.wall)))
            && after[key].count <= LimitFor(key.limitType, last.tier)
  {
    assert (calls + [last])[..|calls|] == calls;
  }

  /** The latest call can only matter to intervals that contain its time. */
  lemma {:induction false} LatestCall(config: Config, calls: seq<Call>, last: Call, key: Key, x: nat)
    requires config.enabled && ClockRuns(calls + [last]) && IsAccepted(config, After(config, calls), last, key)
    ensures WindowCount(config, calls + [last], key, x) ==
            if x <= last.now < x + config.window then AcceptedFrom(config, calls, key, x) + 1
            else WindowCount(config, calls, key, x)
  {
    hide After, AcceptedFrom, IsAccepted;
    AcceptedStep(config, calls, last, key, x);
    AcceptedStep(config, calls, last, key, x + config.window);
    if last.now < x + config.window {
      forall i | 0 <= i < |calls| ensures calls[i].now <= last.now {
        assert (calls + [last])[i] == calls[i] && (calls + [last])[|calls|] == last;
      }
      NothingFromTheFuture(config, calls, key, x + config.window);
    }
  }

  /** Every interval count stays below 2L if it does for those that contain the
      latest accepted call. */
  lemma {:induction false} LatestCallBound(config: Config, calls: seq<Call>, last: Call, key: Key, most: nat)
    requires config.enabled && ClockRuns(calls + [last]) && IsAccepted(config, After(config, calls), last, key)
    requires forall x: nat :: WindowCount(config, calls, key, x) < 2 * most
    requires forall x: nat :: x <= last.now < x + config.window ==> AcceptedFrom(config, calls, key, x) + 1 < 2 * most
    ensures forall x: nat :: WindowCount(config, calls + [last], key, x) < 2 * most
  {
    forall x: nat ensures WindowCount(config, calls + [last], key, x) < 2 * most {
      LatestCall(config, calls, last, key, x);
    }
  }

  lemma {:induction false} LimitOfLast(calls: seq<Call>, last: Call, key: Key, most: nat)
    requires LimitsAtMost(calls + [last], key, most) && last.Check? && last.key == key
    ensures LimitFor(key.limitType, last.tier) <= most
  {
    assert (calls + [last])[|calls|] == last;
  }

  /** An accepted check inside the current window. */
  lemma {:induction false} AcceptedInWindow(config: Config, calls: seq<Call>, last: Call, key: Key, most: nat)
    requires RunRecords(config, calls, key, most) && config.enabled && ClockRuns(calls + [last])
    requires LimitsAtMost(calls + [last], key, most)
    requires IsAccepted(config, After(config, calls), last, key)
    requires key in After(config, calls) && Live(config, After(config, calls)[key], last.now)
    requires After(config, calls)[key].windowStart <= last.now
    ensures RunRecords(config, calls + [last], key, most)
  {
    hide After, AcceptedFrom, WindowCount;
    var entry := After(config, calls)[key];
    LimitOfLast(calls, last, key, most);
    forall x: nat {
      AcceptedStep(config, calls, last, key, x);
    }
    forall x: nat | x <= last.now < x + config.window
      ensures AcceptedFrom(config, calls, key, x) + 1 < 2 * most
    {
      if entry.windowStart < x {
        AcceptedAntitone(config, calls, key, entry.windowStart + 1, x);
      }
    }
    LatestCallBound(config, calls, last, key, most);
  }

  /** An accepted check that opens a window: the first of all, or one after the
      previous window has expired. */
  lemma {:induction false} AcceptedOpensWindow(config: Config, calls: seq<Call>, last: Call, key: Key, most: nat)
    requires RunRecords(config, calls, key, most) && config.enabled && ClockRuns(calls + [last])
    requires LimitsAtMost(calls + [last], key, most) && config.window > 0
    requires IsAccepted(config, After(config, calls), last, key)
    requires key in After(config, calls) ==> After(config, calls)[key].windowStart + config.window <= last.now
    ensures RunRecords(config, calls + [last], key, most)
  {
    hide After, AcceptedFrom, WindowCount;
    var now := last.now;
    LimitOfLast(calls, last, key, most);
    forall x: nat {
      AcceptedStep(config, calls, last, key, x);
    }
    forall x: nat ensures now < x + config.window ==> AcceptedFrom(config, calls, key, x) < most {
      FewBeforeNewWindow(config, calls, key, most, now, x);
    }
    forall x: nat ensures now <= x ==> AcceptedFrom(config, calls, key, x) == 0 {
      FewBeforeNewWindow(config, calls, key, most, now, x);
    }
    LatestCallBound(config, calls, last, key, most);
  }

  /** Once the previous window has expired, less than its quota lies within one
      window length of now, and nothing lies at now or later. */
  lemma {:induction false} FewBeforeNewWindow(config: Config, calls: seq<Call>, key: Key, most: nat, now: nat, x: nat)
    requires RunRecords(config, calls, key, most) && most > 0
    requires key in After(config, calls) ==> After(config, calls)[key].windowStart + config.window <= now
    ensures now < x + config.window ==> AcceptedFrom(config, calls, key, x) < most
    ensures now <= x ==> AcceptedFrom(config, calls, key, x) == 0
  {
    if key in After(config, calls) {
      var s := After(config, calls)[key].windowStart;
      if now < x + config.window {
        AcceptedAntitone(config, calls, key, s + 1, x);
      }
      if now <= x {
        AcceptedAntitone(config, calls, key, s + config.window, x);
      }
    } else {
      AcceptedAntitone(config, calls, key, 0, x);
    }
  }

  ghost predicate StartsInThePast(config: Config, calls: seq<Call>, now: nat) {
    forall key :: key in After(config, calls) ==> After(config, calls)[key].windowStart <= now
  }

  lemma {:induction false} WindowsStartInThePast(config: Config, calls: seq<Call>, now: nat)
    requires ClockRuns(calls) && (calls != [] ==> calls[|calls| - 1].now <= now)
    ensures StartsInThePast(config, calls, now)
    decreases |calls|
  {
    if calls != [] {
      var init, last := calls[..|calls| - 1], calls[|calls| - 1];
      WindowsStartInThePast(config, init, last.now);
      assert After(config, calls) == Apply(config, After(config, init), last);
      hide After;
    }
  }

  lemma {:induction false} EmptyRecorded(config: Config, key: Key, most: nat)
    requires most > 0
    ensures RunRecords(config, [], key, most)
  {
    assert forall x: nat :: WindowCount(config, [], key, x) == 0;
  }

  lemma {:induction false} CallRecorded(config: Config, calls: seq<Call>, last: Call, key: Key, most: nat)
    requires config.enabled && config.window > 0 && !last.Cleanup?
    requires RunRecords(config, calls, key, most) && StartsInThePast(config, calls, last.now)
    requires ClockRuns(calls + [last]) && LimitsAtMost(calls + [last], key, most)
    ensures RunRecords(config, calls + [last], key, most)
  {
    hide After, RunRecords, IsAccepted, LimitsAtMost, ClockRuns;
    if !IsAccepted(config, After(config, calls), last, key) {
      OtherCallKeeps(config, calls, last, key, most);
    } else if key in After(config, calls) && Live(config, After(config, calls)[key], last.now) {
      AcceptedInWindow(config, calls, last, key, most);
    } else {
      AcceptedOpensWindow(config, calls, last, key, most);
    }
  }

  lemma {:induction false} RunsAreRecorded(config: Config, calls: seq<Call>, key: Key, most: nat)
    requires config.enabled && config.window > 0 && most > 0
    requires ClockRuns(calls) && NoCleanups(calls) && LimitsAtMost(calls, key, most)
    ensures RunRecords(config, calls, key, most)
    decreases |calls|
  {
    hide After, RunRecords, StartsInThePast, LimitFor;
    if calls == [] {
      EmptyRecorded(config, key, most);
    } else {
      var init, last := calls[..|calls| - 1], calls[|calls| - 1];
      RunsAreRecorded(config, init, key, most);
      assert calls == init + [last];
      WindowsStartInThePast(config, init, last.now);
      CallRecorded(config, init, last, key, most);
    }
  }

  lemma {:induction false} ErasedIsPart(calls: seq<Call>)
    ensures forall i :: 0 <= i < |WithoutCleanups(calls)| ==>
              WithoutCleanups(calls)[i] in calls && !WithoutCleanups(calls)[i].Cleanup?
    decreases |calls|
  {
    if calls != [] {
      ErasedIsPart(calls[..|calls| - 1]);
    }
  }

  lemma {:induction false} ErasedClockRuns(calls: seq<Call>)
    requires ClockRuns(calls)
    ensures ClockRuns(WithoutCleanups(calls))
    decreases |calls|
  {
    if calls != [] {
      var init := calls[..|calls| - 1];
      ErasedClockRuns(init);
      ErasedIsPart(init);
    }
  }

  lemma {:induction false} ErasedRun(calls: seq<Call>, key: Key, most: nat)
    requires ClockRuns(calls) && LimitsAtMost(calls, key, most)
    ensures var e := WithoutCleanups(calls); ClockRuns(e) && NoCleanups(e) && LimitsAtMost(e, key, most)
  {
    ErasedIsPart(calls);
    ErasedClockRuns(calls);
  }

  /** Sliding-interval bound. In every run with cleanups anywhere, the requests
      accepted on one key within any interval of one window length number at
      most 2L - 1, where L bounds the limits used on that key. */
  lemma {:induction false} SlidingBound(config: Config, calls: seq<Call>, key: Key, most: nat, x: nat)
    requires config.enabled && most > 0 && ClockRuns(calls) && LimitsAtMost(calls, key, most)
    ensures WindowCount(config, calls, key, x) <= 2 * most - 1
  {
    hide After, AcceptedFrom, EntryRecords, WithoutCleanups;
    var erased := WithoutCleanups(calls);
    CleanupsErased(config, calls, key, x);
    CleanupsErased(config, calls, key, x + config.window);
    if config.window > 0 {
      ErasedRun(calls, key, most);
      RunsAreRecorded(config, erased, key, most);
      assert WindowCount(config, erased, key, x) < 2 * most;
    }
  }

  /** Per-window bound. A live entry counts exactly the requests accepted since
      its window opened, never more than L. */
  lemma {:induction false} WindowBound(config: Config, calls: seq<Call>, key: Key, most: nat)
    requires config.enabled && most > 0 && ClockRuns(calls) && LimitsAtMost(calls, key, most)
    requires calls != [] && key in After(config, calls)
    requires Live(config, After(config, calls)[key], calls[|calls| - 1].now)
    ensures var entry := After(config, calls)[key];
            AcceptedFrom(config, calls, key, entry.windowStart) == entry.count <= most
  {
    ErasedRun(calls, key, most);
    RunsAreRecorded(config, WithoutCleanups(calls), key, most);
    CleanupsErased(config, calls, key, After(config, calls)[key].windowStart);
  }

  // ---------------------------------------------------------------------
  // What a check is answered
  // ---------------------------------------------------------------------

  /** A check on the key, at the time its window opened; the window's reset time
      is a window length after what the wall clock said then, in whole seconds. */
  ghost predicate OpenedBy(config: Config, calls: seq<Call>, key: Key, i: nat)
    requires key in After(config, calls)
  {
    && i < |calls| && calls[i].Check? && calls[i].key == key
    && calls[i].now == After(config, calls)[key].windowStart
    && After(config, calls)[key].resetAt == if calls[i].wall < 0 then 0 else calls[i].wall + config.window / 1_000_000_000
  }

  lemma {:induction false} EntryOpened(config: Config, calls: seq<Call>, key: Key) returns (i: nat)
    requires config.enabled && key in After(config, calls)
    ensures OpenedBy(config, calls, key, i)
    decreases |calls|
  {
    var init, last := calls[..|calls| - 1], calls[|calls| - 1];
    if key in After(config, init) && After(config, calls)[key].(count := 0) == After(config, init)[key].(count := 0) {
      i := EntryOpened(config, init, key);
    } else {
      i := |calls| - 1;
    }
  }

  lemma {:induction false} LimitOfTier(calls: seq<Call>, key: Key)
    ensures LimitsAtMost(calls, key, LimitFor(key.limitType, Enterprise))
  {
  }

  /** Every check of a run is answered by the number of requests accepted since
      its window opened: it is allowed exactly while that is below the limit, and
      learns how many are left and when the window ends. */
  lemma {:induction false} RepliesExactly(config: Config, calls: seq<Call>, key: Key, tier: Tier, now: nat, wall: int)
    requires config.enabled && ClockRuns(calls + [Check(key, tier, now, wall)])
    ensures var limit, reply := LimitFor(key.limitType, tier), Checked(config, After(config, calls), key, tier, now, wall).1;
            if key in After(config, calls) && now < After(config, calls)[key].windowStart + config.window then
              var entry := After(config, calls)[key];
              var used := AcceptedFrom(config, calls, key, entry.windowStart);
              reply == if used < limit then Allowed(Info(limit, limit - used - 1, entry.resetAt)) else LimitExceeded(limit, 0, entry.resetAt)
            else
              reply == Allowed(Info(limit, limit - 1, if wall < 0 then 0 else wall + config.window / 1_000_000_000))
  {
    hide AcceptedFrom;
    var all := calls + [Check(key, tier, now, wall)];
    assert all[|calls|] == Check(key, tier, now, wall) && forall i :: 0 <= i < |calls| ==> all[i] == calls[i];
    WindowsStartInThePast(config, calls, now);
    if key in After(config, calls) && Live(config, After(config, calls)[key], now) {
      assert calls != [];
      LimitOfTier(calls, key);
      WindowBound(config, calls, key, LimitFor(key.limitType, Enterprise));
    }
  }

  /** A cleanup drops the entries whose window is over and nothing else. */
  lemma {:induction false} CleanedExactly(config: Config, counters: Counters, now: nat, key: Key)
    requires key in counters && counters[key].windowStart <= now
    ensures key in Cleaned(config, counters, now) <==> now < counters[key].windowStart + config.window
    ensures forall k :: k in Cleaned(config, counters, now) ==> k in counters && Cleaned(config, counters, now)[k] == counters[k]
  {
  }

  /** A limiter that is switched off allows everything and counts nothing. */
  lemma {:induction false} DisabledAllows(config: Config, counters: Counters, key: Key, tier: Tier, now: nat, wall: int)
    requires !config.enabled
    ensures var (after, reply) := Checked(config, counters, key, tier, now, wall);
            && after == counters
            && reply == Allowed(Info(4_294_967_295, 4_294_967_295, 0))
            && InfoOf(config, counters, key, tier, now, wall) == reply.info
  {
  }

  // ---------------------------------------------------------------------
  // The sliding-interval bound is attained
  // ---------------------------------------------------------------------

  function Burst(key: Key, tier: Tier, now: nat, n: nat): (r: seq<Call>) {
    seq(n, _ => Check(key, tier, now, 0))
  }

  /** A check is accepted while its window has room, and stays in that window. */
  lemma {:induction false} RoomAccepts(config: Config, calls: seq<Call>, key: Key, tier: Tier, now: nat, x: nat)
    requires config.enabled && config.window > 0
    requires OpenEntry(config, After(config, calls), key, now, 0).count < LimitFor(key.limitType, tier)
    requires OpenEntry(config, After(config, calls), key, now, 0).windowStart <= now
    ensures var entry := OpenEntry(config, After(config, calls), key, now, 0);
            var all := calls + [Check(key, tier, now, 0)];
            && key in After(config, all)
            && After(config, all)[key] == entry.(count := entry.count + 1)
            && OpenEntry(config, After(config, all), key, now, 0) == After(config, all)[key]
            && AcceptedFrom(config, all, key, x) == AcceptedFrom(config, calls, key, x) + if now >= x then 1 else 0
  {
    hide LimitFor;
    AcceptedStep(config, calls, Check(key, tier, now, 0), key, x);
    hide After, AcceptedFrom;
  }

  /** A burst that fits into the open window is accepted whole. */
  lemma {:induction false} BurstAccepted(config: Config, calls: seq<Call>, key: Key, tier: Tier, now: nat, n: nat, x: nat)
    requires config.enabled && n > 0 && config.window > 0
    requires OpenEntry(config, After(config, calls), key, now, 0).count + n <= LimitFor(key.limitType, tier)
    requires OpenEntry(config, After(config, calls), key, now, 0).windowStart <= now
    ensures var all := calls + Burst(key, tier, now, n);
            var entry := OpenEntry(config, After(config, calls), key, now, 0);
            && key in After(config, all)
            && After(config, all)[key] == entry.(count := entry.count + n)
            && OpenEntry(config, After(config, all), key, now, 0) == After(config, all)[key]
            && AcceptedFrom(config, all, key, x) == AcceptedFrom(config, calls, key, x) + if now >= x then n else 0
  {
    hide After, AcceptedFrom, OpenEntry, LimitFor;
    var init := calls + Burst(key, tier, now, n - 1);
    assert calls + Burst(key, tier, now, n) == init + [Check(key, tier, now, 0)];
    if n == 1 {
      assert init == calls;
    } else {
      BurstAccepted(config, calls, key, tier, now, n - 1, x);
    }
    RoomAccepts(config, init, key, tier, now, x);
  }

  /** One request opens a window, the rest of its quota comes in the window's
      last instant, and a full quota in the instant the next window opens. */
  function WorstCase(config: Config, key: Key, tier: Tier): (r: seq<Call>)
    requires config.window >= 2
  {
    var limit := LimitFor(key.limitType, tier);
    Burst(key, tier, 0, 1) + Burst(key, tier, config.window - 1, limit - 1) + Burst(key, tier, config.window, limit)
  }

  lemma {:induction false} SlidingBoundIsTight(config: Config, key: Key, tier: Tier)
    requires config.enabled && config.window >= 2
    ensures ClockRuns(WorstCase(config, key, tier))
    ensures LimitsAtMost(WorstCase(config, key, tier), key, LimitFor(key.limitType, tier))
    ensures AcceptedIn(config, WorstCase(config, key, tier), key, 1, 1 + config.window) ==
            2 * LimitFor(key.limitType, tier) - 1
  {
    WorstCaseAccepted(config, key, tier, 1);
    WorstCaseAccepted(config, key, tier, 1 + config.window);
  }

  lemma {:induction false} FirstRequest(config: Config, key: Key, tier: Tier, x: nat)
    requires config.enabled && config.window > 0 && x > 0
    ensures var a := Burst(key, tier, 0, 1);
            && key in After(config, a) && After(config, a)[key] == Entry(1, 0, ResetAt(config, 0))
            && AcceptedFrom(config, a, key, x) == 0
  {
    assert [] + Burst(key, tier, 0, 1) == Burst(key, tier, 0, 1);
    BurstAccepted(config, [], key, tier, 0, 1, x);
  }

  lemma {:induction false} RestOfQuota(config: Config, key: Key, tier: Tier, x: nat)
    requires config.enabled && config.window >= 2 && x > 0
    ensures var limit := LimitFor(key.limitType, tier);
            var b := Burst(key, tier, 0, 1) + Burst(key, tier, config.window - 1, limit - 1);
            && key in After(config, b) && After(config, b)[key] == Entry(limit, 0, ResetAt(config, 0))
            && AcceptedFrom(config, b, key, x) == if config.window - 1 >= x then limit - 1 else 0
  {
    FirstRequest(config, key, tier, x);
    hide After, AcceptedFrom, Burst, LimitFor;
    BurstAccepted(config, Burst(key, tier, 0, 1), key, tier, config.window - 1, LimitFor(key.limitType, tier) - 1, x);
  }

  lemma {:induction false} WorstCaseAccepted(config: Config, key: Key, tier: Tier, x: nat)
    requires config.enabled && config.window >= 2 && (x == 1 || x == 1 + config.window)
    ensures AcceptedFrom(config, WorstCase(config, key, tier), key, x) ==
            if x == 1 then 2 * LimitFor(key.limitType, tier) - 1 else 0
  {
    hide After, AcceptedFrom, Burst, LimitFor;
    RestOfQuota(config, key, tier, x);
    var limit := LimitFor(key.limitType, tier);
    var b := Burst(key, tier, 0, 1) + Burst(key, tier, config.window - 1, limit - 1);
    BurstAccepted(config, b, key, tier, config.window, limit, x);
  }
}
