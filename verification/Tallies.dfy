/**
 The counters and times of an account, told by its history. A tally is a small machine
 of its own that knows nothing of labels, patches, stacks or blocks; the record follows it.
 */
module Tallies {
  import opened Wrappers
  import opened PoolMeta
  import opened PoolOps
  import opened PoolRuns

  datatype Tally = Tally(
    cooling: bool,
    weight: nat,
    requests: nat,
    successes: nat,
    failures: nat,
    failsInRow: nat,
    lastUsed: Option<real>,
    probeFails: nat,
    lastProbeFail: Option<real>,
    renewFails: nat,
    expiredSince: Option<real>,
    holdUntil: Option<real>)

  function TallyOf(m: Meta): Tally {
    Tally(m.cooldownCount > 0, m.weight, m.requestCount, m.successCount, m.failCount, m.consecutiveFails, m.lastUsedAt,
          m.probeFailStreak, m.lastProbeFailAt, m.renewFailCount, m.tokenExpiredAt, m.cooldownUntil)
  }

  const ONE_YEAR: real := 31536000.0

  /** A free-usage error holds the account for a year, or for longer if it already was. */
  function AtLeastAYear(until: Option<real>, now: real): Option<real> {
    if until.Some? && until.value > now + ONE_YEAR then until else Some(now + ONE_YEAR)
  }

  /** The report says that the model is gone, which kicks the account before the failure is recorded. */
  predicate ModelIsGone(op: Op) {
    op.ReportFailure? && op.handler.ModelGoneHandler? && op.model != ""
  }

  /** A free-usage error comes with the operation. */
  predicate IsFreeUsage(op: Op) {
    match op
    case FreeUsageExhaustion(_, _) => true
    case ProbeError(free, _, _, _) => free.Some?
    case ReportFailure(free, _, handler, model) => free.Some? || (handler.UsageHandler? && model != "")
    case _ => false
  }

  /** How many failed requests an operation counts. */
  function FailuresIn(op: Op): nat {
    if ModelIsGone(op) then 2 else if op.ReportFailure? || op.KickSoft? then 1 else 0
  }

  function SuccessesIn(op: Op): nat {
    if op.ReportSuccess? then 1 else 0
  }

  /** An operation that cools the account down, given how many probes have failed before it. */
  predicate Cools(op: Op, streak: nat) {
    || op.ReportFailure? || op.FreeUsageExhaustion? || op.KickSoft?
    || (op.ProbeError? && (op.free.Some? || (op.autoKick && streak + 1 >= op.kickAt)))
  }

  /** An account that is used weighs something. */
  function Weighed(weight: nat): nat {
    if weight == 0 then 1 else weight
  }

  /** One operation. Nothing but a recovery ends a cooldown. */
  function Next(op: Op, t: Tally, now: real): Tally {
    Noted(op, t, now).(cooling := Cools(op, t.probeFails) || (t.cooling && !IsRecovery(op)))
  }

  /** Its effect on counters and times. */
  function Noted(op: Op, t: Tally, now: real): Tally {
    match op
    case ReportSuccess(_) =>
      t.(weight := Weighed(t.weight), requests := t.requests + 1, successes := t.successes + 1,
         failsInRow := 0, lastUsed := Some(now),
         probeFails := if t.cooling then t.probeFails else 0)
    case ReportFailure(free, _, _, _) =>
      t.(weight := Weighed(t.weight), requests := t.requests + FailuresIn(op), failures := t.failures + FailuresIn(op),
         failsInRow := t.failsInRow + 1, lastUsed := Some(now),
         lastProbeFail := if IsFreeUsage(op) then Some(now) else t.lastProbeFail,
         holdUntil := if free.Some? && !ModelIsGone(op) then AtLeastAYear(t.holdUntil, now) else Some(now + ONE_YEAR))
    case FreeUsageExhaustion(_, _) =>
      t.(lastProbeFail := Some(now), holdUntil := AtLeastAYear(t.holdUntil, now))
    case ProbeOk(_) => t.(probeFails := 0, failsInRow := 0, holdUntil := None)
    case ClearCooldown => t.(probeFails := 0, failsInRow := 0, holdUntil := None)
    case ProbeError(free, _, autoKick, kickAt) =>
      t.(probeFails := t.probeFails + 1, lastProbeFail := Some(now),
         holdUntil := if free.Some? then AtLeastAYear(t.holdUntil, now)
                      else if autoKick && t.probeFails + 1 >= kickAt then Some(now + ONE_YEAR)
                      else t.holdUntil)
    case KickSoft =>
      t.(weight := Weighed(t.weight), requests := t.requests + 1, failures := t.failures + 1, lastUsed := Some(now),
         failsInRow := if t.failsInRow == 0 then 1 else t.failsInRow, holdUntil := Some(now + ONE_YEAR))
    case SetEnabled(enabled) => if enabled then t.(failsInRow := 0, holdUntil := None) else t
    case MarkExpired => t.(expiredSince := Some(t.expiredSince.GetOr(now)))
    case RecordRenewFailure => t.(expiredSince := Some(t.expiredSince.GetOr(now)), renewFails := t.renewFails + 1)
    case ClearExpired => t.(expiredSince := None, renewFails := 0)
    case _ => t
  }

  // One step

  /** A free-usage error by itself. */
  function Exhausted(t: Tally, now: real): Tally {
    t.(cooling := true, lastProbeFail := Some(now), holdUntil := AtLeastAYear(t.holdUntil, now))
  }

  /** What the handler does to the tally. */
  function Prepared(t: Tally, handler: Handler, model: ModelId, now: real): Tally {
    if model == "" || handler.NoHandler? then t
    else if handler.UsageHandler? then Exhausted(t, now)
    else Next(KickSoft, t, now)
  }

  /** What the recorded failure does to it afterwards. */
  function Recorded(t: Tally, streak: nat, free: Option<FreeUsage>, now: real): Tally {
    t.(cooling := true, weight := Weighed(t.weight), requests := t.requests + 1, failures := t.failures + 1,
       failsInRow := streak, lastUsed := Some(now),
       lastProbeFail := if free.Some? then Some(now) else t.lastProbeFail,
       holdUntil := if free.Some? then AtLeastAYear(t.holdUntil, now) else Some(now + ONE_YEAR))
  }

  lemma FreeUsageTally(m: Meta, usage: FreeUsage, model: ModelId, now: real)
    ensures TallyOf(FreeUsageHit(m, usage, model, now)) == Exhausted(TallyOf(m), now)
  {
  }

  lemma SoftKickTally(m: Meta, now: real)
    ensures TallyOf(SoftKicked(m, now)) == Next(KickSoft, TallyOf(m), now)
  {
  }

  lemma RecordedTally(
      h: Meta, seen: seq<StatusEntry>, streak: nat, free: Option<FreeUsage>, empty: bool, model: ModelId, now: real)
    ensures TallyOf(FailureRecorded(h, seen, streak, free, empty, model, now))
         == Recorded(TallyOf(h), streak, free, now)
  {
    if free.Some? {
      FreeUsageTally(h, free.value, model, now);
    }
  }

  lemma FailureIsBoth(t: Tally, free: Option<FreeUsage>, empty: bool, handler: Handler, model: ModelId, now: real)
    ensures Recorded(Prepared(t, handler, model, now), t.failsInRow + 1, free, now)
         == Next(ReportFailure(free, empty, handler, model), t, now)
  {
  }

  lemma TallyOnceHandled(
      t: Tally, h: Meta, seen: seq<StatusEntry>, streak: nat, free: Option<FreeUsage>, empty: bool,
      handler: Handler, model: ModelId, now: real)
    requires TallyOf(h) == Prepared(t, handler, model, now) && streak == t.failsInRow + 1
    ensures TallyOf(FailureRecorded(h, seen, streak, free, empty, model, now))
         == Next(ReportFailure(free, empty, handler, model), t, now)
  {
    RecordedTally(h, seen, streak, free, empty, model, now);
    FailureIsBoth(t, free, empty, handler, model, now);
  }

  lemma QuietTally(v: Meta, m: Meta, free: Option<FreeUsage>, empty: bool, model: ModelId, now: real)
    requires v.consecutiveFails == m.consecutiveFails
    ensures TallyOf(FailureOf(v, m, free, empty, NoHandler, model, now))
         == Next(ReportFailure(free, empty, NoHandler, model), TallyOf(m), now)
  {
    var t, streak := TallyOf(m), v.consecutiveFails + 1;
    TallyOnceHandled(t, m, v.statusStack, streak, free, empty, NoHandler, model, now);
  }

  /** Without a model there is nothing for a handler to do. */
  lemma NamelessFailure(v: Meta, m: Meta, free: Option<FreeUsage>, empty: bool, handler: Handler, now: real)
    ensures FailureOf(v, m, free, empty, handler, "", now) == FailureOf(v, m, free, empty, NoHandler, "", now)
  {
  }

  lemma NamelessTally(v: Meta, m: Meta, free: Option<FreeUsage>, empty: bool, handler: Handler, now: real)
    requires v.consecutiveFails == m.consecutiveFails
    ensures TallyOf(FailureOf(v, m, free, empty, handler, "", now))
         == Next(ReportFailure(free, empty, handler, ""), TallyOf(m), now)
  {
    QuietTally(v, m, free, empty, "", now);
    NamelessFailure(v, m, free, empty, handler, now);
  }

  lemma UsageTally(
      v: Meta, m: Meta, free: Option<FreeUsage>, empty: bool, usage: FreeUsage, model: ModelId, now: real)
    requires v.consecutiveFails == m.consecutiveFails && model != ""
    ensures TallyOf(FailureOf(v, m, free, empty, UsageHandler(usage), model, now))
         == Next(ReportFailure(free, empty, UsageHandler(usage), model), TallyOf(m), now)
  {
    var h := FreeUsageHit(m, usage, model, now);
    var t, streak, handler := TallyOf(m), v.consecutiveFails + 1, UsageHandler(usage);
    FreeUsageTally(m, usage, model, now);
    TallyOnceHandled(t, h, v.statusStack, streak, free, empty, handler, model, now);
  }

  lemma ModelGoneTally(
      v: Meta, m: Meta, free: Option<FreeUsage>, empty: bool, ttl: real, model: ModelId, now: real)
    requires v.consecutiveFails == m.consecutiveFails && model != ""
    ensures TallyOf(FailureOf(v, m, free, empty, ModelGoneHandler(ttl), model, now))
         == Next(ReportFailure(free, empty, ModelGoneHandler(ttl), model), TallyOf(m), now)
  {
    var b := BlockedFor(m, model, "upstream_error", Some(ttl), now);
    var t, streak, handler := TallyOf(m), v.consecutiveFails + 1, ModelGoneHandler(ttl);
    assert TallyOf(b) == t;
    SoftKickTally(b, now);
    TallyOnceHandled(t, SoftKicked(b, now), v.statusStack, streak, free, empty, handler, model, now);
  }

  lemma FailureTally(
      v: Meta, m: Meta, free: Option<FreeUsage>, empty: bool, handler: Handler, model: ModelId, now: real)
    requires v.consecutiveFails == m.consecutiveFails
    ensures TallyOf(FailureOf(v, m, free, empty, handler, model, now))
         == Next(ReportFailure(free, empty, handler, model), TallyOf(m), now)
  {
    if handler.NoHandler? {
      QuietTally(v, m, free, empty, model, now);
    } else if model == "" {
      NamelessTally(v, m, free, empty, handler, now);
    } else if handler.UsageHandler? {
      UsageTally(v, m, free, empty, handler.usage, model, now);
    } else {
      ModelGoneTally(v, m, free, empty, handler.durableTtl, model, now);
    }
  }

  /** A failure counted without a streak of its own is one more in a row, and without an end marker of its own
      leaves the marker. */
  lemma TouchDefaults(m: Meta, until: real, streak: nat, preserve: bool, now: real)
    ensures var n := Touched(m, false, None, None, preserve, now);
            n.consecutiveFails == m.consecutiveFails + 1 && n.cooldownUntil == m.cooldownUntil
    ensures var n := Touched(m, false, Some(until), Some(streak), preserve, now);
            n.consecutiveFails == streak && n.cooldownUntil == Some(until)
  {
  }

  lemma TouchTally(m: Meta, now: real)
    ensures TallyOf(Touched(m, true, None, Some(0), true, now))
         == Next(ReportSuccess(""), TallyOf(m), now).(probeFails := m.probeFailStreak)
  {
  }

  lemma SettlingTally(m: Meta, model: ModelId, now: real)
    ensures TallyOf(SuccessSettled(m, model, now)) == TallyOf(m).(probeFails := 0)
  {
  }

  lemma SuccessTally(m: Meta, model: ModelId, now: real)
    requires Inv(m)
    ensures TallyOf(LiveSuccess(m, model, now)) == Next(ReportSuccess(model), TallyOf(m), now)
  {
    CoolingIsClockFree(m, now, now);
    TouchTally(m, now);
    SettlingTally(Touched(m, true, None, Some(0), true, now), model, now);
  }

  lemma ProbeErrorTally(m: Meta, free: Option<FreeUsage>, model: ModelId, autoKick: bool, kickAt: nat, now: real)
    ensures TallyOf(ProbeFailed(m, free, model, autoKick, kickAt, now))
         == Next(ProbeError(free, model, autoKick, kickAt), TallyOf(m), now)
  {
    if free.Some? {
      FreeUsageTally(m, free.value, model, now);
    }
  }

  lemma {:induction false} TrafficTally(op: Op, m: Meta, now: real)
    requires Inv(m) && IsTraffic(op)
    ensures TallyOf(Step(op, m, now)) == Next(op, TallyOf(m), now)
  {
    match op
    case ReportSuccess(model) => SuccessTally(m, model, now);
    case ReportFailure(free, empty, handler, model) => FailureTally(View(m, now), m, free, empty, handler, model, now);
    case FreeUsageExhaustion(usage, model) => FreeUsageTally(m, usage, model, now);
    case ProbeError(free, model, autoKick, kickAt) => ProbeErrorTally(m, free, model, autoKick, kickAt, now);
    case KickSoft => SoftKickTally(m, now);
  }

  lemma {:induction false} RenewalTally(op: Op, m: Meta, now: real)
    requires IsRenewal(op)
    ensures TallyOf(Step(op, m, now)) == Next(op, TallyOf(m), now)
  {
  }

  lemma {:induction false} UpkeepTally(op: Op, m: Meta, now: real)
    requires IsUpkeep(op)
    ensures TallyOf(Step(op, m, now)) == TallyOf(m)
  {
  }

  lemma {:induction false} ReenableTally(op: Op, m: Meta, now: real)
    requires IsReenable(op)
    ensures TallyOf(Step(op, m, now)) == TallyOf(m)
  {
  }

  lemma {:induction false} SwitchTally(op: Op, m: Meta, now: real)
    requires IsSwitch(op)
    ensures TallyOf(Step(op, m, now)) == Next(op, TallyOf(m), now)
  {
    if op.SetEnabled? {
      EnabledTally(m, op.enabled, now);
    }
  }

  lemma EnabledTally(m: Meta, enabled: bool, now: real)
    ensures TallyOf(EnabledSet(m, enabled, now)) == Next(SetEnabled(enabled), TallyOf(m), now)
  {
  }

  lemma {:induction false} RecoveryTally(op: Op, m: Meta, now: real)
    requires IsRecovery(op)
    ensures TallyOf(Step(op, m, now)) == Next(op, TallyOf(m), now)
  {
  }

  /** Every operation moves the record as it moves the tally. */
  lemma {:induction false} StepTally(op: Op, m: Meta, now: real)
    requires Inv(m)
    ensures TallyOf(Step(op, m, now)) == Next(op, TallyOf(m), now)
  {
    if IsTraffic(op) {
      TrafficTally(op, m, now);
    } else if IsRenewal(op) {
      RenewalTally(op, m, now);
    } else if IsUpkeep(op) {
      UpkeepTally(op, m, now);
    } else if IsReenable(op) {
      ReenableTally(op, m, now);
    } else if IsSwitch(op) {
      SwitchTally(op, m, now);
    } else {
      RecoveryTally(op, m, now);
    }
  }

  // Whole runs

  /** The tally of an account after a run that began at the given tally: the events are all that counts. */
  function TallyRun(first: Tally, events: seq<Event>, id: AccountId): Tally {
    if events == [] then first
    else
      var e, t := events[|events| - 1], TallyRun(first, events[..|events| - 1], id);
      if e.id == id then Next(e.op, t, e.now) else t
  }

  lemma TallyAfterEvent(metas: map<AccountId, Meta>, e: Event, id: AccountId)
    requires PoolInv(metas) && id != ""
    ensures TallyOf(Get(Apply(metas, e), id)) ==
      if e.id == id then Next(e.op, TallyOf(Get(metas, id)), e.now) else TallyOf(Get(metas, id))
  {
    if e.id == id {
      StepTally(e.op, Get(metas, id), e.now);
    }
  }

  /** After every run the counters and times of an account are those its events tell. */
  lemma {:induction false} RecordFollowsTally(metas: map<AccountId, Meta>, events: seq<Event>, id: AccountId)
    requires PoolInv(metas) && id != ""
    ensures TallyOf(Get(Run(metas, events), id)) == TallyRun(TallyOf(Get(metas, id)), events, id)
  {
    if events != [] {
      var n := |events| - 1;
      RunKeepsInv(metas, events[..n]);
      RecordFollowsTally(metas, events[..n], id);
      TallyAfterEvent(Run(metas, events[..n]), events[n], id);
    }
  }

  lemma TallyRunOfOne(first: Tally, e: Event)
    ensures TallyRun(first, [e], e.id) == Next(e.op, first, e.now)
  {
    assert [e][..0] == [];
  }

  const NEW_TALLY := TallyOf(EmptyMeta)

  // Totals

  function SumOf(weight: Op -> nat, events: seq<Event>, id: AccountId): nat {
    if events == [] then 0
    else
      var e, sum := events[|events| - 1], SumOf(weight, events[..|events| - 1], id);
      if e.id == id then sum + weight(e.op) else sum
  }

  /** From an empty pool: successes are the success reports, failures the failure reports and soft kicks, with a
      report of a missing model counted twice, and requests are the sum of both. */
  lemma {:induction false} TotalsAreCounted(events: seq<Event>, id: AccountId)
    requires id != ""
    ensures var m := Get(Run(map[], events), id);
            && m.successCount == SumOf(SuccessesIn, events, id)
            && m.failCount == SumOf(FailuresIn, events, id)
            && m.requestCount == m.successCount + m.failCount
  {
    RecordFollowsTally(map[], events, id);
    TalliedTotals(events, id);
  }

  lemma {:induction false} TalliedTotals(events: seq<Event>, id: AccountId)
    ensures var t := TallyRun(NEW_TALLY, events, id);
            && t.successes == SumOf(SuccessesIn, events, id)
            && t.failures == SumOf(FailuresIn, events, id)
            && t.requests == t.successes + t.failures
  {
    if events != [] {
      TalliedTotals(events[..|events| - 1], id);
    }
  }

  // Failed probes

  /** How many probes of the account have failed since the last success; one that is reported while the account is
      cooling does not count as a success. */
  ghost function ProbeStreak(metas: map<AccountId, Meta>, events: seq<Event>, id: AccountId): nat {
    if events == [] then Get(metas, id).probeFailStreak
    else
      var e, before := events[|events| - 1], events[..|events| - 1];
      if e.id != id then ProbeStreak(metas, before, id)
      else if e.op.ProbeError? then ProbeStreak(metas, before, id) + 1
      else if IsRecovery(e.op) || (e.op.ReportSuccess? && !UnrecoveredFailure(metas, before, id)) then 0
      else ProbeStreak(metas, before, id)
  }

  lemma StreakOfNext(op: Op, t: Tally, now: real)
    ensures Next(op, t, now).probeFails ==
      if op.ProbeError? then t.probeFails + 1
      else if IsRecovery(op) || (op.ReportSuccess? && !t.cooling) then 0
      else t.probeFails
  {
  }

  /** The stored streak is the number of failed probes since the last success. */
  lemma {:induction false} StreakIsCounted(metas: map<AccountId, Meta>, events: seq<Event>, id: AccountId)
    requires PoolInv(metas) && id != ""
    ensures Get(Run(metas, events), id).probeFailStreak == ProbeStreak(metas, events, id)
  {
    if events != [] {
      var n := |events| - 1;
      var e, t := events[n], TallyOf(Get(Run(metas, events[..n]), id));
      StreakIsCounted(metas, events[..n], id);
      assert t.cooling <==> UnrecoveredFailure(metas, events[..n], id) by {
        CountIffUnrecoveredFailure(metas, events[..n], id);
      }
      assert TallyOf(Get(Run(metas, events), id)) == if e.id == id then Next(e.op, t, e.now) else t by {
        RunKeepsInv(metas, events[..n]);
        TallyAfterEvent(Run(metas, events[..n]), e, id);
      }
      StreakOfNext(e.op, t, e.now);
    }
  }

  /** Cooling after one more event, told by the events alone. */
  lemma {:induction false} CoolingByHistory(metas: map<AccountId, Meta>, events: seq<Event>, e: Event, id: AccountId)
    requires PoolInv(metas) && id != ""
    ensures UnrecoveredFailure(metas, events + [e], id) <==>
      if e.id != id then UnrecoveredFailure(metas, events, id)
      else Cools(e.op, ProbeStreak(metas, events, id))
           || (UnrecoveredFailure(metas, events, id) && !IsRecovery(e.op))
  {
    assert (events + [e])[..|events|] == events;
    UnrecoveredFailureStep(metas, events + [e], id);
    StreakIsCounted(metas, events, id);
  }

  /** Probes of one account that fail in a row, none for free usage, with the same threshold. */
  predicate PlainProbeErrors(probes: seq<Event>, id: AccountId, kickAt: nat) {
    forall e | e in probes ::
      e.id == id && e.op.ProbeError? && e.op.free.None? && e.op.autoKick && e.op.kickAt == kickAt
  }

  lemma StreakStep(metas: map<AccountId, Meta>, events: seq<Event>, e: Event, id: AccountId)
    requires e.id == id && e.op.ProbeError?
    ensures ProbeStreak(metas, events + [e], id) == ProbeStreak(metas, events, id) + 1
  {
    assert (events + [e])[..|events|] == events;
  }

  lemma {:induction false} ProbesFailIff(
      metas: map<AccountId, Meta>, events: seq<Event>, probes: seq<Event>, id: AccountId, kickAt: nat)
    requires PoolInv(metas) && id != "" && probes != [] && PlainProbeErrors(probes, id, kickAt)
    ensures ProbeStreak(metas, events + probes, id) == ProbeStreak(metas, events, id) + |probes|
    ensures UnrecoveredFailure(metas, events + probes, id) <==>
              UnrecoveredFailure(metas, events, id) || ProbeStreak(metas, events, id) + |probes| >= kickAt
  {
    var n := |probes| - 1;
    var front, e := events + probes[..n], probes[n];
    assert e in probes && events + probes == front + [e];
    CoolingByHistory(metas, front, e, id);
    StreakStep(metas, front, e, id);
    if n > 0 {
      ProbesFailIff(metas, events, probes[..n], id, kickAt);
    } else {
      assert front == events;
    }
  }

  /** Failed probes in a row cool an account down exactly when they bring the streak to the threshold. */
  lemma ProbesEscalateIff(
      metas: map<AccountId, Meta>, events: seq<Event>, probes: seq<Event>, id: AccountId, kickAt: nat, t: real)
    requires PoolInv(metas) && id != "" && probes != [] && PlainProbeErrors(probes, id, kickAt)
    ensures Get(Run(metas, events + probes), id).probeFailStreak == ProbeStreak(metas, events, id) + |probes|
    ensures IsInCooldown(View(Get(Run(metas, events + probes), id), t), t) <==>
              UnrecoveredFailure(metas, events, id) || ProbeStreak(metas, events, id) + |probes| >= kickAt
  {
    ProbesFailIff(metas, events, probes, id, kickAt);
    StreakIsCounted(metas, events + probes, id);
    CoolingIffUnrecoveredFailure(metas, events + probes, id, t);
  }
}
