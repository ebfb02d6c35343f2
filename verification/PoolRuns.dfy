/**
 Policies of the pool over whole runs of operations on many accounts.

 A run is a finite sequence of events, each an operation on one account at some
 clock value. The clock is not assumed to be monotonic unless stated.
 */
module PoolRuns {
  import opened Wrappers
  import opened Sequences
  import opened Latch
  import opened PoolMeta
  import opened PoolOps

  datatype Event = Event(id: AccountId, op: Op, now: real)

  /** The pool after one event; an empty account id is ignored, and a step that changes nothing writes nothing. */
  function Apply(metas: map<AccountId, Meta>, e: Event): map<AccountId, Meta> {
    var after := Step(e.op, Get(metas, e.id), e.now);
    if e.id == "" || after == Get(metas, e.id) then metas else metas[e.id := after]
  }

  lemma ApplyIsUpdate(metas: map<AccountId, Meta>, e: Event)
    requires e.id != "" && Step(e.op, Get(metas, e.id), e.now).poolStatus.Some?
    ensures Apply(metas, e) == metas[e.id := Step(e.op, Get(metas, e.id), e.now)]
  {
  }

  lemma ApplyStored(metas: map<AccountId, Meta>, e: Event)
    requires e.id in metas
    ensures Apply(metas, e) == if e.id == "" then metas else metas[e.id := Step(e.op, metas[e.id], e.now)]
  {
    assert metas[e.id := metas[e.id]] == metas;
  }

  lemma FailureHasLabel(
      h: Meta, seen: seq<StatusEntry>, streak: nat, free: Option<FreeUsage>, empty: bool, model: ModelId, now: real)
    ensures FailureRecorded(h, seen, streak, free, empty, model, now).poolStatus.Some?
  {
  }

  lemma SuccessHasLabel(m: Meta, model: ModelId, now: real)
    ensures LiveSuccess(m, model, now).poolStatus.Some?
  {
  }

  lemma StepIsUpdate(metas: map<AccountId, Meta>, e: Event, after: Meta)
    requires e.id != "" && after == Step(e.op, Get(metas, e.id), e.now) && after.poolStatus.Some?
    ensures Apply(metas, e) == metas[e.id := after]
  {
  }

  lemma LiveFailureHasLabel(m: Meta, free: Option<FreeUsage>, empty: bool, handler: Handler, model: ModelId, now: real)
    ensures LiveFailure(m, free, empty, handler, model, now).poolStatus.Some?
  {
    var v := View(m, now);
    FailureHasLabel(Handled(m, handler, model, now), v.statusStack, v.consecutiveFails + 1, free, empty, model, now);
  }

  lemma FailureIsUpdate(
      metas: map<AccountId, Meta>, id: AccountId,
      free: Option<FreeUsage>, empty: bool, handler: Handler, model: ModelId, now: real)
    requires id != ""
    ensures Apply(metas, Event(id, ReportFailure(free, empty, handler, model), now))
         == metas[id := LiveFailure(Get(metas, id), free, empty, handler, model, now)]
  {
    LiveFailureHasLabel(Get(metas, id), free, empty, handler, model, now);
    StepIsUpdate(metas, Event(id, ReportFailure(free, empty, handler, model), now),
      LiveFailure(Get(metas, id), free, empty, handler, model, now));
  }

  function Run(metas: map<AccountId, Meta>, events: seq<Event>): map<AccountId, Meta> {
    if events == [] then metas
    else Apply(Run(metas, events[..|events| - 1]), events[|events| - 1])
  }

  lemma RunOfOneMore(metas: map<AccountId, Meta>, events: seq<Event>, e: Event)
    ensures Run(metas, events + [e]) == Apply(Run(metas, events), e)
  {
    assert (events + [e])[..|events|] == events;
  }

  lemma RunOfOne(metas: map<AccountId, Meta>, e: Event)
    ensures Run(metas, [e]) == Apply(metas, e)
  {
    assert [e][..0] == [];
  }

  lemma {:induction false} RunOfConcat(metas: map<AccountId, Meta>, a: seq<Event>, b: seq<Event>)
    ensures Run(metas, a + b) == Run(Run(metas, a), b)
  {
    if b == [] {
      assert a + b == a;
    } else {
      var front, e := b[..|b| - 1], b[|b| - 1];
      var middle := Run(metas, a);
      assert b == front + [e];
      assert a + b == a + front + [e];
      assert Run(metas, a + front + [e]) == Apply(Run(metas, a + front), e) by {
        RunOfOneMore(metas, a + front, e);
      }
      assert Run(middle, front + [e]) == Apply(Run(middle, front), e) by {
        RunOfOneMore(middle, front, e);
      }
      RunOfConcat(metas, a, front);
    }
  }

  // ------------------------------------------------------------ stored-record invariant

  /** What every stored record satisfies, whatever operations produced it. */
  predicate Inv(m: Meta) {
    && (m.statusStack != [] ==> m.cooldownCount > 0)
    && (m.cooldownUntil.Some? ==> m.cooldownCount > 0)
    && LabelFits(m)
  }

  predicate LabelFits(m: Meta) {
    match m.poolStatus
    case None => m.cooldownCount == 0
    case Some(Normal) => m.enabled && !m.disabledForQuota && m.cooldownCount == 0 && m.blockedModels == map[]
    case Some(ModelBlocked) => m.enabled && !m.disabledForQuota && m.cooldownCount == 0 && m.blockedModels != map[]
    case Some(Expired) => m.enabled && !m.disabledForQuota && m.cooldownCount == 0
    case Some(Disabled) => !m.enabled && !m.disabledForQuota
    case Some(QuotaDisabled) => m.disabledForQuota
    case Some(Cooldown) => m.cooldownCount > 0
  }

  predicate PoolInv(metas: map<AccountId, Meta>) {
    forall id | id in metas :: Inv(metas[id])
  }

  lemma TouchKeepsInv(m: Meta, success: bool, until: Option<real>, fails: Option<nat>, preserve: bool, now: real)
    requires Inv(m)
    requires until.Some? ==> m.cooldownCount > 0
    ensures Inv(Touched(m, success, until, fails, preserve, now))
  {
  }

  lemma FreeUsageKeepsInv(m: Meta, free: FreeUsage, model: ModelId, now: real)
    ensures Inv(FreeUsageHit(m, free, model, now))
    ensures FreeUsageHit(m, free, model, now).cooldownCount > 0
    ensures FreeUsageHit(m, free, model, now).statusStack != []
    ensures FreeUsageHit(m, free, model, now).lastRenewStatus == m.lastRenewStatus
  {
  }

  lemma SoftKickKeepsInv(m: Meta, now: real)
    ensures Inv(SoftKicked(m, now)) && SoftKicked(m, now).cooldownCount > 0
    ensures SoftKicked(m, now).lastRenewStatus == m.lastRenewStatus
  {
  }

  lemma HandlerKeepsInv(m: Meta, handler: Handler, model: ModelId, now: real)
    requires Inv(m)
    ensures Inv(Handled(m, handler, model, now))
    ensures Handled(m, handler, model, now).lastRenewStatus == m.lastRenewStatus
  {
    match handler
    case UsageHandler(usage) => FreeUsageKeepsInv(m, usage, model, now);
    case ModelGoneHandler(ttl) => SoftKickKeepsInv(BlockedFor(m, model, "upstream_error", Some(ttl), now), now);
    case NoHandler =>
  }

  lemma LiveFailureKeepsInv(m: Meta, free: Option<FreeUsage>, empty: bool, handler: Handler, model: ModelId, now: real)
    requires Inv(m)
    ensures Inv(LiveFailure(m, free, empty, handler, model, now))
    ensures LiveFailure(m, free, empty, handler, model, now).cooldownCount > 0
    ensures LiveFailure(m, free, empty, handler, model, now).lastRenewStatus == m.lastRenewStatus
  {
    var h := Handled(m, handler, model, now);
    HandlerKeepsInv(m, handler, model, now);
    if free.Some? {
      FreeUsageKeepsInv(h, free.value, model, now);
    }
  }

  lemma StreakPatchKeepsInv(m: Meta, now: real)
    requires Inv(m)
    ensures var n := Patched(m, Patch(probeFailStreak := Put(0)), now);
            && Inv(n) && n.cooldownCount == m.cooldownCount && n.lastRenewStatus == m.lastRenewStatus
            && n.blockedModels == m.blockedModels
  {
  }

  lemma BlockPatchKeepsInv(m: Meta, blocked: map<ModelId, Block>, now: real)
    requires Inv(m)
    ensures var n := Patched(m, Patch(blockedModels := Put(blocked)), now);
            Inv(n) && n.cooldownCount == m.cooldownCount && n.lastRenewStatus == m.lastRenewStatus
  {
  }

  lemma SuccessSettledKeepsInv(t: Meta, model: ModelId, now: real)
    requires Inv(t)
    ensures Inv(SuccessSettled(t, model, now))
    ensures SuccessSettled(t, model, now).cooldownCount == t.cooldownCount
    ensures SuccessSettled(t, model, now).lastRenewStatus == t.lastRenewStatus
  {
    StreakPatchKeepsInv(t, now);
    var p := if View(t, now).probeFailStreak != 0 then Patched(t, Patch(probeFailStreak := Put(0)), now) else t;
    BlockPatchKeepsInv(p, if model == "" then map[] else p.blockedModels - {model}, now);
  }

  lemma {:induction false} LiveSuccessKeepsInv(m: Meta, model: ModelId, now: real)
    requires Inv(m)
    ensures Inv(LiveSuccess(m, model, now))
    ensures LiveSuccess(m, model, now).cooldownCount == m.cooldownCount
    ensures LiveSuccess(m, model, now).lastRenewStatus == m.lastRenewStatus
  {
    TouchKeepsInv(m, true, None, Some(0), true, now);
    SuccessSettledKeepsInv(Touched(m, true, None, Some(0), true, now), model, now);
  }

  lemma ProbeFailureKeepsInv(m: Meta, free: Option<FreeUsage>, model: ModelId, autoKick: bool, kickAt: nat, now: real)
    requires Inv(m)
    ensures Inv(ProbeFailed(m, free, model, autoKick, kickAt, now))
    ensures ProbeFailed(m, free, model, autoKick, kickAt, now).lastRenewStatus == m.lastRenewStatus
    ensures ProbeFailed(m, free, model, autoKick, kickAt, now).cooldownCount > 0
            <==> free.Some? || (autoKick && m.probeFailStreak + 1 >= kickAt) || m.cooldownCount > 0
  {
    if free.Some? {
      FreeUsageKeepsInv(m, free.value, model, now);
    }
  }

  // ------------------------------------------------------------ cooling

  /** The two operations meant to end a cooldown. */
  predicate IsRecovery(op: Op) {
    op.ProbeOk? || op.ClearCooldown?
  }

  /** The operations that put an account into cooldown. */
  predicate IsFailure(op: Op, m: Meta) {
    || op.ReportFailure?
    || op.FreeUsageExhaustion?
    || op.KickSoft?
    || (op.ProbeError? && (op.free.Some? || (op.autoKick && m.probeFailStreak + 1 >= op.kickAt)))
  }

  predicate IsSwitch(op: Op) {
    op.SetEnabled? || op.KickHard? || op.DisableForQuota?
  }

  lemma EnabledSetKeepsInv(m: Meta, enabled: bool, now: real)
    requires Inv(m)
    ensures var n := EnabledSet(m, enabled, now);
            Inv(n) && n.cooldownCount == m.cooldownCount && n.lastRenewStatus == m.lastRenewStatus
  {
  }

  lemma {:induction false} SwitchKeepsInv(op: Op, m: Meta, now: real)
    requires Inv(m) && IsSwitch(op)
    ensures Inv(Step(op, m, now)) && Step(op, m, now).cooldownCount == m.cooldownCount
    ensures Step(op, m, now).lastRenewStatus == m.lastRenewStatus
  {
    if op.SetEnabled? {
      EnabledSetKeepsInv(m, op.enabled, now);
    }
  }

  predicate IsReenable(op: Op) {
    op.ReenableForQuota? || op.SaveHealthyQuota? || op.ReenableProbeKicks?
  }

  lemma {:induction false} ReenableKeepsInv(op: Op, m: Meta, now: real)
    requires Inv(m) && IsReenable(op)
    ensures Inv(Step(op, m, now)) && Step(op, m, now).cooldownCount == m.cooldownCount
    ensures Step(op, m, now).lastRenewStatus == m.lastRenewStatus
  {
  }

  predicate IsRenewal(op: Op) {
    op.MarkExpired? || op.ClearExpired? || op.RecordRenewFailure? || op.MarkSsoAttempt? || op.MarkSsoFailure?
  }

  lemma ExpiryMarkKeepsInv(m: Meta, now: real)
    requires Inv(m)
    ensures var n := MarkedExpired(m, now); Inv(n) && n.cooldownCount == m.cooldownCount
  {
  }

  lemma ExpiryClearKeepsInv(m: Meta, now: real)
    requires Inv(m)
    ensures var n := ExpiryCleared(m, now); Inv(n) && n.cooldownCount == m.cooldownCount
  {
  }

  lemma {:induction false} RenewalKeepsInv(op: Op, m: Meta, now: real)
    requires Inv(m) && IsRenewal(op)
    ensures Inv(Step(op, m, now)) && Step(op, m, now).cooldownCount == m.cooldownCount
  {
    match op
    case MarkExpired => ExpiryMarkKeepsInv(m, now);
    case ClearExpired => ExpiryClearKeepsInv(m, now);
    case _ =>
  }

  /** Operations on blocks and on display data. */
  predicate IsUpkeep(op: Op) {
    op.BlockModel? || op.UnblockModel? || op.PruneBlocks? || op.ClockPrune? || op.SaveLastProbe?
  }

  lemma {:induction false} UpkeepKeepsInv(op: Op, m: Meta, now: real)
    requires Inv(m) && IsUpkeep(op)
    ensures Inv(Step(op, m, now)) && Step(op, m, now).cooldownCount == m.cooldownCount
    ensures Step(op, m, now).lastRenewStatus == m.lastRenewStatus
  {
    match op
    case BlockModel(model, source, ttl) =>
      BlockPatchKeepsInv(m, m.blockedModels[model := NewBlock(m.blockedModels, model, source, ttl, now)], now);
    case UnblockModel(model) =>
      BlockPatchKeepsInv(m, if model == "" then map[] else m.blockedModels - {model}, now);
    case PruneBlocks =>
      BlockPatchKeepsInv(m, LiveBlocks(m.blockedModels, now), now);
    case ClockPrune =>
    case SaveLastProbe(_) =>
      BlockPatchKeepsInv(m, m.blockedModels, now);
  }

  lemma {:induction false} RecoveryKeepsInv(op: Op, m: Meta, now: real)
    requires Inv(m) && IsRecovery(op)
    ensures Inv(Step(op, m, now)) && Step(op, m, now).cooldownCount == 0
    ensures Step(op, m, now).lastRenewStatus == m.lastRenewStatus
  {
  }

  predicate IsTraffic(op: Op) {
    op.ReportSuccess? || op.ReportFailure? || op.FreeUsageExhaustion? || op.ProbeError? || op.KickSoft?
  }

  lemma {:induction false} TrafficKeepsInv(op: Op, m: Meta, now: real)
    requires Inv(m) && IsTraffic(op)
    ensures Inv(Step(op, m, now))
    ensures Step(op, m, now).cooldownCount > 0 <==> IsFailure(op, m) || m.cooldownCount > 0
    ensures Step(op, m, now).lastRenewStatus == m.lastRenewStatus
  {
    match op
    case ReportSuccess(model) => LiveSuccessKeepsInv(m, model, now);
    case ReportFailure(free, empty, handler, model) => LiveFailureKeepsInv(m, free, empty, handler, model, now);
    case FreeUsageExhaustion(usage, model) => FreeUsageKeepsInv(m, usage, model, now);
    case ProbeError(free, model, autoKick, kickAt) => ProbeFailureKeepsInv(m, free, model, autoKick, kickAt, now);
    case KickSoft => SoftKickKeepsInv(m, now);
  }

  lemma {:induction false} StepKeepsInv(op: Op, m: Meta, now: real)
    requires Inv(m)
    ensures Inv(Step(op, m, now))
    ensures Step(op, m, now).cooldownCount > 0 <==> IsFailure(op, m) || (m.cooldownCount > 0 && !IsRecovery(op))
    ensures !IsRenewal(op) ==> Step(op, m, now).lastRenewStatus == m.lastRenewStatus
  {
    if IsTraffic(op) {
      TrafficKeepsInv(op, m, now);
    } else if IsRecovery(op) {
      RecoveryKeepsInv(op, m, now);
    } else if IsRenewal(op) {
      RenewalKeepsInv(op, m, now);
    } else if IsUpkeep(op) {
      UpkeepKeepsInv(op, m, now);
    } else if IsSwitch(op) {
      SwitchKeepsInv(op, m, now);
    } else {
      ReenableKeepsInv(op, m, now);
    }
  }

  /** In a reachable record the cooldown test does not depend on the clock at all. */
  lemma CoolingIsClockFree(m: Meta, now: real, t: real)
    requires Inv(m)
    ensures IsInCooldown(m, t) <==> m.cooldownCount > 0
    ensures IsInCooldown(View(m, now), t) <==> m.cooldownCount > 0
  {
  }

  lemma {:induction false} RunKeepsInv(metas: map<AccountId, Meta>, events: seq<Event>)
    requires PoolInv(metas)
    ensures PoolInv(Run(metas, events))
  {
    if events != [] {
      var e := events[|events| - 1];
      var before := Run(metas, events[..|events| - 1]);
      RunKeepsInv(metas, events[..|events| - 1]);
      StepKeepsInv(e.op, Get(before, e.id), e.now);
    }
  }

  /** Stored labels agree with the scheduling predicate in every reachable state, at every clock value. */
  lemma {:induction false} LabelAgreesWithScheduling(
      metas: map<AccountId, Meta>, events: seq<Event>, id: AccountId, t: real)
    requires PoolInv(metas)
    ensures var m := Get(Run(metas, events), id);
            && (IsInCooldown(m, t) ==> m.poolStatus in {Some(Cooldown), Some(Disabled), Some(QuotaDisabled)})
            && (m.poolStatus == Some(Cooldown) ==> IsInCooldown(m, t) && IsInCooldown(View(m, t), t))
            && (m.enabled && !m.disabledForQuota ==> (IsInCooldown(m, t) <==> m.poolStatus == Some(Cooldown)))
  {
    RunKeepsInv(metas, events);
    CoolingIsClockFree(Get(Run(metas, events), id), t, t);
  }

  /** What a record shows when no renewal hold covers it: its stored label, or, if it has none, the one that the next
      write would store. */
  lemma ShownLabel(m: Meta, now: real)
    requires Inv(m) && !IsRenewBlocking(m.lastRenewStatus)
    ensures var stored := if m.poolStatus.Some? then m.poolStatus.value
                          else DeriveStatus(m.(blockedModels := LiveBlocks(m.blockedModels, now)), now);
            View(m, now).poolStatus == Some(stored)
  {
  }

  /** A record labelled normal by mistake is shown as cooling, whatever is stored beside it. */
  lemma WrongLabelIsCorrected(m: Meta, now: real)
    requires m.poolStatus == Some(Normal) && !IsRenewBlocking(m.lastRenewStatus)
    ensures View(m, now).poolStatus == Some(Cooldown) <==> IsInCooldown(View(m, now), now)
  {
  }

  predicate RecoveredAt(events: seq<Event>, k: nat, id: AccountId) {
    k < |events| && events[k].id == id && IsRecovery(events[k].op)
  }

  predicate FailedAt(metas: map<AccountId, Meta>, events: seq<Event>, i: nat, id: AccountId) {
    i < |events| && events[i].id == id && IsFailure(events[i].op, Get(Run(metas, events[..i]), id))
  }

  function Failures(metas: map<AccountId, Meta>, events: seq<Event>, id: AccountId): nat -> bool {
    (i: nat) => FailedAt(metas, events, i, id)
  }

  function Recoveries(events: seq<Event>, id: AccountId): nat -> bool {
    (i: nat) => RecoveredAt(events, i, id)
  }

  /** The account failed (or started out cooling) and nothing since was a recovery operation. */
  ghost predicate UnrecoveredFailure(metas: map<AccountId, Meta>, events: seq<Event>, id: AccountId) {
    Unlifted(Get(metas, id).cooldownCount > 0, Failures(metas, events, id), Recoveries(events, id), |events|)
  }

  lemma UnrecoveredFailureStep(metas: map<AccountId, Meta>, events: seq<Event>, id: AccountId)
    requires events != []
    ensures var n := |events| - 1;
            UnrecoveredFailure(metas, events, id)
            <==> FailedAt(metas, events, n, id)
                 || (UnrecoveredFailure(metas, events[..n], id) && !RecoveredAt(events, n, id))
  {
    var n, prefix := |events| - 1, events[..|events| - 1];
    UnliftedGrows(Get(metas, id).cooldownCount > 0, Failures(metas, events, id), Recoveries(events, id),
                  Failures(metas, prefix, id), Recoveries(prefix, id), n) by {
      forall k: nat | k < n
        ensures FailedAt(metas, events, k, id) == FailedAt(metas, prefix, k, id)
      {
        assert events[..k] == prefix[..k];
      }
    }
  }

  lemma {:induction false} CoolingAfterEvent(metas: map<AccountId, Meta>, e: Event, id: AccountId)
    requires PoolInv(metas) && id != ""
    ensures Get(Apply(metas, e), id).cooldownCount > 0
            <==> (e.id == id && IsFailure(e.op, Get(metas, id)))
                 || (Get(metas, id).cooldownCount > 0 && !(e.id == id && IsRecovery(e.op)))
  {
    if e.id == id {
      StepKeepsInv(e.op, Get(metas, id), e.now);
    }
  }

  lemma {:induction false} CountIffUnrecoveredFailure(metas: map<AccountId, Meta>, events: seq<Event>, id: AccountId)
    requires PoolInv(metas) && id != ""
    ensures Get(Run(metas, events), id).cooldownCount > 0 <==> UnrecoveredFailure(metas, events, id)
  {
    if events != [] {
      var n := |events| - 1;
      RunKeepsInv(metas, events[..n]);
      CountIffUnrecoveredFailure(metas, events[..n], id);
      UnrecoveredFailureStep(metas, events, id);
      CoolingAfterEvent(Run(metas, events[..n]), events[n], id);
    }
  }

  /** A run may be cut anywhere: what came before counts as the account starting out cooling. */
  lemma UnrecoveredFailureOfConcat(metas: map<AccountId, Meta>, a: seq<Event>, b: seq<Event>, id: AccountId)
    requires PoolInv(metas) && id != ""
    ensures UnrecoveredFailure(metas, a + b, id) <==> UnrecoveredFailure(Run(metas, a), b, id)
  {
    RunOfConcat(metas, a, b);
    RunKeepsInv(metas, a);
    CountIffUnrecoveredFailure(metas, a + b, id);
    CountIffUnrecoveredFailure(Run(metas, a), b, id);
  }

  /**
   The pool's cooldown policy over whole runs: at every clock value an account is kept
   out of rotation exactly when it failed and no successful probe or explicit clear came
   since, whatever else was done to it or to other accounts.
   */
  lemma {:induction false} CoolingIffUnrecoveredFailure(
      metas: map<AccountId, Meta>, events: seq<Event>, id: AccountId, t: real)
    requires PoolInv(metas) && id != ""
    ensures IsInCooldown(View(Get(Run(metas, events), id), t), t) <==> UnrecoveredFailure(metas, events, id)
  {
    RunKeepsInv(metas, events);
    CountIffUnrecoveredFailure(metas, events, id);
    CoolingIsClockFree(Get(Run(metas, events), id), t, t);
  }

  // ------------------------------------------------------------ failure streaks

  /** A failure streak comes with a failure count. */
  predicate StreakFits(m: Meta) {
    m.consecutiveFails > 0 ==> m.cooldownCount > 0
  }

  predicate StreakInv(metas: map<AccountId, Meta>) {
    forall id | id in metas :: StreakFits(metas[id])
  }

  lemma {:induction false} StepKeepsStreak(op: Op, m: Meta, now: real)
    requires Inv(m) && StreakFits(m)
    ensures StreakFits(Step(op, m, now))
  {
    StepKeepsInv(op, m, now);
    match op
    case ReportSuccess(model) => SuccessEndsStreak(m, model, now);
    case ProbeError(free, model, autoKick, kickAt) => ProbeFailureKeepsStreak(m, free, model, autoKick, kickAt, now);
    case _ =>
      if !IsTraffic(op) {
        OthersStartNoStreak(op, m, now);
      }
  }

  lemma SuccessEndsStreak(m: Meta, model: ModelId, now: real)
    ensures LiveSuccess(m, model, now).consecutiveFails == 0
  {
  }

  lemma ProbeFailureKeepsStreak(
      m: Meta, free: Option<FreeUsage>, model: ModelId, autoKick: bool, kickAt: nat, now: real)
    ensures ProbeFailed(m, free, model, autoKick, kickAt, now).consecutiveFails == m.consecutiveFails
  {
  }

  lemma {:induction false} OthersStartNoStreak(op: Op, m: Meta, now: real)
    requires !IsTraffic(op)
    ensures Step(op, m, now).consecutiveFails in {m.consecutiveFails, 0}
  {
    if IsRenewal(op) {
      RenewalKeepsStreak(op, m, now);
    } else if IsUpkeep(op) {
      UpkeepKeepsStreak(op, m, now);
    } else if IsReenable(op) {
      ReenableKeepsStreak(op, m, now);
    } else {
      SwitchStartsNoStreak(op, m, now);
    }
  }

  lemma {:induction false} RenewalKeepsStreak(op: Op, m: Meta, now: real)
    requires IsRenewal(op)
    ensures Step(op, m, now).consecutiveFails == m.consecutiveFails
  {
  }

  lemma {:induction false} UpkeepKeepsStreak(op: Op, m: Meta, now: real)
    requires IsUpkeep(op)
    ensures Step(op, m, now).consecutiveFails == m.consecutiveFails
  {
  }

  lemma {:induction false} ReenableKeepsStreak(op: Op, m: Meta, now: real)
    requires IsReenable(op)
    ensures Step(op, m, now).consecutiveFails == m.consecutiveFails
  {
  }

  lemma {:induction false} SwitchStartsNoStreak(op: Op, m: Meta, now: real)
    requires IsSwitch(op) || IsRecovery(op)
    ensures Step(op, m, now).consecutiveFails in {m.consecutiveFails, 0}
  {
  }

  lemma {:induction false} RunKeepsStreaks(metas: map<AccountId, Meta>, events: seq<Event>)
    requires PoolInv(metas) && StreakInv(metas)
    ensures StreakInv(Run(metas, events))
  {
    if events != [] {
      var e, prefix := events[|events| - 1], events[..|events| - 1];
      RunKeepsInv(metas, prefix);
      RunKeepsStreaks(metas, prefix);
      StepKeepsStreak(e.op, Get(Run(metas, prefix), e.id), e.now);
    }
  }

  // ------------------------------------------------------------ renewal

  /**
   An expiry mark alone outlives a successful probe exactly when the account was never
   renewed before: a previous "ok" renewal status survives the mark, and the probe's
   recovery then overwrites the only trace of it.
   */
  lemma ExpiryMarkOutlivesProbe(m: Meta, marked: real, model: ModelId, probed: real, t: real)
    requires Inv(m)
    ensures var n := ProbeSucceeded(MarkedExpired(m, marked), model, probed);
            View(n, t).poolStatus == Some(Expired) <==> m.lastRenewStatus != RenewOk
  {
  }

  // ------------------------------------------------------------ what single operations achieve

  ghost predicate NeverCooling(m: Meta) {
    forall t :: !IsInCooldown(View(m, t), t)
  }

  ghost predicate AlwaysShownExpired(m: Meta) {
    forall t :: View(m, t).poolStatus == Some(Expired)
  }

  ghost predicate NeverShownExpired(m: Meta) {
    forall t :: View(m, t).poolStatus != Some(Expired)
  }

  lemma ClearingEndsCooldown(m: Meta, now: real)
    ensures NeverCooling(CooldownCleared(m, now))
  {
  }

  lemma RenewalMarksShow(m: Meta, now: real)
    ensures AlwaysShownExpired(RenewalFailed(m, now))
    ensures AlwaysShownExpired(SsoAttempted(m, now)) && AlwaysShownExpired(SsoReauthFailed(m, now))
  {
  }

  lemma ClearedExpiryIsNotShown(m: Meta, now: real)
    ensures NeverShownExpired(ExpiryCleared(m, now))
    ensures !m.disabledForQuota ==> ExpiryCleared(m, now).enabled
  {
  }

  /** A plain expiry mark shows unless the last renewal went well and some stronger label applies. */
  lemma ExpiryMarkShowsIff(m: Meta, now: real, t: real)
    ensures View(MarkedExpired(m, now), t).poolStatus == Some(Expired) <==>
      || m.lastRenewStatus != RenewOk
      || (m.enabled && !m.disabledForQuota && m.cooldownCount == 0
          && !(m.cooldownUntil.Some? && m.cooldownUntil.value > now))
  {
  }

  // ------------------------------------------------------------ enabling by hand

  /**
   Re-enabling an account by hand ends a cooldown only if the account never failed:
   it removes the clock marker but neither the failure count nor the status stack.
   */
  lemma EnableEndsCooldownIff(m: Meta, now: real, t: real)
    ensures IsInCooldown(View(EnabledSet(m, true, now), t), t) <==> m.cooldownCount > 0 || m.statusStack != []
  {
  }

  /** A late success report relabels an account that is off, by hand or for quota, as cooling. */
  lemma LateSuccessRelabelsDisabled(m: Meta, model: ModelId, now: real)
    requires Inv(m) && (m.poolStatus == Some(Disabled) || m.poolStatus == Some(QuotaDisabled))
    ensures Step(ReportSuccess(model), m, now).poolStatus ==
      if m.cooldownUntil.Some? && m.cooldownUntil.value > now then Some(Cooldown) else m.poolStatus
  {
  }
}
