/** When accounts are switched off and on again over whole runs. */
module Switches {
  import opened Wrappers
  import opened PoolMeta
  import opened PoolOps
  import opened PoolRuns
  import opened Latch

  /** The operations that switch an account off. */
  predicate Disables(op: Op) {
    (op.SetEnabled? && !op.enabled) || op.KickHard? || op.DisableForQuota?
  }

  /** The operations that leave an account of the given record switched on. Some are no administration at all:
      any free-usage error does it, and so does the renewal of a token. */
  predicate Enables(op: Op, m: Meta, now: real) {
    match op
    case SetEnabled(enabled) => enabled
    case ReportFailure(free, _, handler, model) => free.Some? || (handler.UsageHandler? && model != "")
    case FreeUsageExhaustion(_, _) => true
    case ProbeOk(_) => ProbeReenables(View(m, now))
    case ProbeError(free, _, _, _) => free.Some?
    case ClearExpired => !m.disabledForQuota
    case ReenableForQuota => true
    case SaveHealthyQuota => WasQuotaDisabled(m)
    case ReenableProbeKicks => DisabledByProbe(m)
    case _ => false
  }

  /** A quota mark comes with the account being switched off. */
  predicate QuotaFits(m: Meta) {
    m.disabledForQuota ==> !m.enabled
  }

  predicate QuotaInv(metas: map<AccountId, Meta>) {
    forall id | id in metas :: QuotaFits(metas[id])
  }

  /** What one operation makes of both switches. */
  ghost predicate SwitchesAs(op: Op, m: Meta, now: real) {
    var n := Step(op, m, now);
    && (n.enabled <==> Enables(op, m, now) || (m.enabled && !Disables(op)))
    && (QuotaFits(m) ==> QuotaFits(n))
  }

  lemma FreeUsageSwitchesOn(m: Meta, usage: FreeUsage, model: ModelId, now: real)
    ensures var n := FreeUsageHit(m, usage, model, now); n.enabled && !n.disabledForQuota
  {
  }

  lemma SoftKickSwitchesNothing(m: Meta, now: real)
    ensures var n := SoftKicked(m, now); n.enabled == m.enabled && n.disabledForQuota == m.disabledForQuota
  {
  }

  lemma HandlerSwitches(m: Meta, handler: Handler, model: ModelId, now: real)
    ensures var h := Handled(m, handler, model, now);
            if handler.UsageHandler? && model != "" then h.enabled && !h.disabledForQuota
            else h.enabled == m.enabled && h.disabledForQuota == m.disabledForQuota
  {
    match handler
    case UsageHandler(usage) => FreeUsageSwitchesOn(m, usage, model, now);
    case ModelGoneHandler(ttl) => SoftKickSwitchesNothing(BlockedFor(m, model, "upstream_error", Some(ttl), now), now);
    case NoHandler =>
  }

  lemma FreeFailureSwitchesOn(
      v: Meta, m: Meta, usage: FreeUsage, empty: bool, handler: Handler, model: ModelId, now: real)
    ensures var n := FailureOf(v, m, Some(usage), empty, handler, model, now); n.enabled && !n.disabledForQuota
  {
    FreeUsageSwitchesOn(Handled(m, handler, model, now), usage, model, now);
  }

  lemma PlainFailureSwitches(v: Meta, m: Meta, empty: bool, handler: Handler, model: ModelId, now: real)
    ensures var n, h := FailureOf(v, m, None, empty, handler, model, now), Handled(m, handler, model, now);
            n.enabled == h.enabled && n.disabledForQuota == h.disabledForQuota
  {
  }

  lemma SuccessSwitchesNothing(m: Meta, model: ModelId, now: real)
    ensures SwitchesAs(ReportSuccess(model), m, now)
  {
  }

  lemma ProbeFailureSwitches(m: Meta, free: Option<FreeUsage>, model: ModelId, autoKick: bool, kickAt: nat, now: real)
    ensures SwitchesAs(ProbeError(free, model, autoKick, kickAt), m, now)
  {
    if free.Some? {
      FreeUsageSwitchesOn(m, free.value, model, now);
    }
  }

  lemma {:induction false} FailureSwitches(op: Op, m: Meta, now: real)
    requires op.ReportFailure?
    ensures SwitchesAs(op, m, now)
  {
    var v := View(m, now);
    assert Step(op, m, now) == FailureOf(v, m, op.free, op.emptyUpstream, op.handler, op.model, now);
    if op.free.Some? {
      FreeFailureSwitchesOn(v, m, op.free.value, op.emptyUpstream, op.handler, op.model, now);
    } else {
      PlainFailureSwitches(v, m, op.emptyUpstream, op.handler, op.model, now);
      HandlerSwitches(m, op.handler, op.model, now);
    }
  }

  lemma {:induction false} TrafficSwitches(op: Op, m: Meta, now: real)
    requires IsTraffic(op) && !op.ReportFailure?
    ensures SwitchesAs(op, m, now)
  {
    match op
    case ReportSuccess(model) => SuccessSwitchesNothing(m, model, now);
    case FreeUsageExhaustion(usage, model) => FreeUsageSwitchesOn(m, usage, model, now);
    case ProbeError(free, model, autoKick, kickAt) => ProbeFailureSwitches(m, free, model, autoKick, kickAt, now);
    case KickSoft => SoftKickSwitchesNothing(m, now);
  }

  lemma {:induction false} RenewalSwitches(op: Op, m: Meta, now: real)
    requires IsRenewal(op)
    ensures SwitchesAs(op, m, now)
  {
  }

  lemma {:induction false} UpkeepSwitchesNothing(op: Op, m: Meta, now: real)
    requires IsUpkeep(op)
    ensures SwitchesAs(op, m, now)
  {
  }

  lemma {:induction false} RecoverySwitches(op: Op, m: Meta, now: real)
    requires IsRecovery(op)
    ensures SwitchesAs(op, m, now)
  {
  }

  lemma {:induction false} SwitchSwitches(op: Op, m: Meta, now: real)
    requires IsSwitch(op)
    ensures SwitchesAs(op, m, now)
  {
  }

  lemma {:induction false} ReenableSwitches(op: Op, m: Meta, now: real)
    requires IsReenable(op)
    ensures SwitchesAs(op, m, now)
  {
  }

  /** For every operation: the account is enabled afterwards iff the operation enables it, or it was enabled and
      the operation does not disable it; a quota mark never comes to stand on an enabled account. */
  lemma {:induction false} StepSwitches(op: Op, m: Meta, now: real)
    ensures SwitchesAs(op, m, now)
  {
    if op.ReportFailure? {
      FailureSwitches(op, m, now);
    } else if IsTraffic(op) {
      TrafficSwitches(op, m, now);
    } else if IsRenewal(op) {
      RenewalSwitches(op, m, now);
    } else if IsUpkeep(op) {
      UpkeepSwitchesNothing(op, m, now);
    } else if IsRecovery(op) {
      RecoverySwitches(op, m, now);
    } else if IsSwitch(op) {
      SwitchSwitches(op, m, now);
    } else {
      ReenableSwitches(op, m, now);
    }
  }

  lemma {:induction false} RunKeepsQuota(metas: map<AccountId, Meta>, events: seq<Event>)
    requires QuotaInv(metas)
    ensures QuotaInv(Run(metas, events))
  {
    if events != [] {
      var e, prefix := events[|events| - 1], events[..|events| - 1];
      RunKeepsQuota(metas, prefix);
      StepSwitches(e.op, Get(Run(metas, prefix), e.id), e.now);
    }
  }

  // Over whole runs

  predicate DisabledAt(events: seq<Event>, i: nat, id: AccountId) {
    i < |events| && events[i].id == id && Disables(events[i].op)
  }

  predicate EnabledAt(metas: map<AccountId, Meta>, events: seq<Event>, i: nat, id: AccountId) {
    i < |events| && events[i].id == id && Enables(events[i].op, Get(Run(metas, events[..i]), id), events[i].now)
  }

  function Disablings(events: seq<Event>, id: AccountId): nat -> bool {
    (i: nat) => DisabledAt(events, i, id)
  }

  function Enablings(metas: map<AccountId, Meta>, events: seq<Event>, id: AccountId): nat -> bool {
    (i: nat) => EnabledAt(metas, events, i, id)
  }

  /** The account was disabled (or started out so) and nothing since enabled it. */
  ghost predicate UnliftedDisable(metas: map<AccountId, Meta>, events: seq<Event>, id: AccountId) {
    Unlifted(!Get(metas, id).enabled, Disablings(events, id), Enablings(metas, events, id), |events|)
  }

  lemma UnliftedDisableStep(metas: map<AccountId, Meta>, events: seq<Event>, id: AccountId)
    requires events != []
    ensures var n := |events| - 1;
            UnliftedDisable(metas, events, id)
            <==> DisabledAt(events, n, id)
                 || (UnliftedDisable(metas, events[..n], id) && !EnabledAt(metas, events, n, id))
  {
    var n, prefix := |events| - 1, events[..|events| - 1];
    UnliftedGrows(!Get(metas, id).enabled, Disablings(events, id), Enablings(metas, events, id),
                  Disablings(prefix, id), Enablings(metas, prefix, id), n) by {
      forall k: nat | k < n
        ensures EnabledAt(metas, events, k, id) == EnabledAt(metas, prefix, k, id)
      {
        assert events[..k] == prefix[..k];
      }
    }
  }

  lemma DisabledAfterEvent(metas: map<AccountId, Meta>, e: Event, id: AccountId)
    requires id != ""
    ensures !Get(Apply(metas, e), id).enabled
            <==> (e.id == id && Disables(e.op))
                 || (!Get(metas, id).enabled && !(e.id == id && Enables(e.op, Get(metas, id), e.now)))
  {
    if e.id == id {
      StepSwitches(e.op, Get(metas, id), e.now);
    }
  }

  /** After every run an account is switched off exactly when something switched it off and nothing on since. */
  lemma {:induction false} DisabledIffUnlifted(metas: map<AccountId, Meta>, events: seq<Event>, id: AccountId)
    requires id != ""
    ensures !Get(Run(metas, events), id).enabled <==> UnliftedDisable(metas, events, id)
  {
    if events != [] {
      var n := |events| - 1;
      DisabledIffUnlifted(metas, events[..n], id);
      UnliftedDisableStep(metas, events, id);
      DisabledAfterEvent(Run(metas, events[..n]), events[n], id);
    }
  }
}
