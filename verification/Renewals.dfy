/** The renewal hold and the expired label over whole runs. */
module Renewals {
  import opened Wrappers
  import opened PoolMeta
  import opened PoolOps
  import opened PoolRuns
  import opened Latch

  // The renewal status

  predicate RenewalFailureOp(op: Op) {
    op.RecordRenewFailure? || op.MarkSsoAttempt? || op.MarkSsoFailure?
  }

  /** The operations that leave a blocking renewal status on a record of the given one. */
  predicate Holds(op: Op, m: Meta) {
    RenewalFailureOp(op) || (op.MarkExpired? && m.lastRenewStatus == NoRenew)
  }

  /** For every operation: the status blocks afterwards iff the operation makes it, or it did and is not cleared. */
  lemma {:induction false} RenewalHoldStepIff(op: Op, m: Meta, now: real)
    requires Inv(m)
    ensures IsRenewBlocking(Step(op, m, now).lastRenewStatus)
        <==> Holds(op, m) || (IsRenewBlocking(m.lastRenewStatus) && op != ClearExpired)
  {
    if IsRenewal(op) {
      RenewalHoldOfRenewal(op, m, now);
    } else {
      assert Step(op, m, now).lastRenewStatus == m.lastRenewStatus by {
        StepKeepsInv(op, m, now);
      }
    }
  }

  lemma {:induction false} RenewalHoldOfRenewal(op: Op, m: Meta, now: real)
    requires IsRenewal(op)
    ensures IsRenewBlocking(Step(op, m, now).lastRenewStatus)
        <==> Holds(op, m) || (IsRenewBlocking(m.lastRenewStatus) && op != ClearExpired)
  {
  }

  // The stored label

  /** The operations that ask for the expired label. */
  predicate AsksForExpired(op: Op) {
    op.MarkExpired? || op.RecordRenewFailure? || op.MarkSsoFailure?
  }

  /** They get it unless a stronger label applies. */
  predicate Labels(op: Op, m: Meta) {
    AsksForExpired(op) && m.enabled && !m.disabledForQuota && m.cooldownCount == 0
  }

  /** The operations that take the label away: all but those that name no label. */
  predicate Unlabels(op: Op, m: Meta) {
    match op
    case ReportSuccess(_) => false
    case ProbeError(_, _, _, _) => IsFailure(op, m)
    case MarkSsoAttempt => false
    case BlockModel(_, _, _) => false
    case UnblockModel(_) => false
    case PruneBlocks => false
    case ClockPrune => false
    case SaveLastProbe(_) => false
    case SaveHealthyQuota => WasQuotaDisabled(m)
    case ReenableProbeKicks => false
    case _ => !AsksForExpired(op)
  }

  ghost predicate LabelsAs(op: Op, m: Meta, now: real) {
    Step(op, m, now).poolStatus == Some(Expired)
    <==> Labels(op, m) || (m.poolStatus == Some(Expired) && !Unlabels(op, m))
  }

  lemma TouchKeepsLabel(m: Meta, now: real)
    requires Inv(m)
    ensures var t := Touched(m, true, None, Some(0), true, now);
            && (t.poolStatus == Some(Expired) <==> m.poolStatus == Some(Expired))
            && (!IsInCooldown(View(m, now), now) ==> Inv(t))
  {
  }

  lemma SettlingKeepsLabel(t: Meta, model: ModelId, now: real)
    requires Inv(t)
    ensures SuccessSettled(t, model, now).poolStatus == Some(Expired) <==> t.poolStatus == Some(Expired)
  {
  }

  lemma SuccessKeepsLabel(m: Meta, model: ModelId, now: real)
    requires Inv(m)
    ensures LabelsAs(ReportSuccess(model), m, now)
  {
    TouchKeepsLabel(m, now);
    if !IsInCooldown(View(m, now), now) {
      SettlingKeepsLabel(Touched(m, true, None, Some(0), true, now), model, now);
    }
  }

  /** A record that is cooling does not have the expired label. */
  lemma CoolingIsNotLabelled(op: Op, m: Meta, now: real)
    requires Inv(m) && IsFailure(op, m)
    ensures Step(op, m, now).poolStatus != Some(Expired)
  {
    StepKeepsInv(op, m, now);
  }

  lemma {:induction false} TrafficLabels(op: Op, m: Meta, now: real)
    requires Inv(m) && IsTraffic(op)
    ensures LabelsAs(op, m, now)
  {
    if IsFailure(op, m) {
      CoolingIsNotLabelled(op, m, now);
    } else if op.ReportSuccess? {
      SuccessKeepsLabel(m, op.model, now);
    } else {
      PlainProbeErrorKeepsLabel(op, m, now);
    }
  }

  lemma {:induction false} PlainProbeErrorKeepsLabel(op: Op, m: Meta, now: real)
    requires Inv(m) && op.ProbeError? && !IsFailure(op, m)
    ensures LabelsAs(op, m, now)
  {
  }

  lemma {:induction false} RenewalLabels(op: Op, m: Meta, now: real)
    requires Inv(m) && IsRenewal(op)
    ensures LabelsAs(op, m, now)
  {
  }

  lemma {:induction false} UpkeepLabels(op: Op, m: Meta, now: real)
    requires Inv(m) && IsUpkeep(op)
    ensures LabelsAs(op, m, now)
  {
  }

  lemma {:induction false} RecoveryLabels(op: Op, m: Meta, now: real)
    requires Inv(m) && IsRecovery(op)
    ensures LabelsAs(op, m, now)
  {
  }

  lemma {:induction false} SwitchLabels(op: Op, m: Meta, now: real)
    requires Inv(m) && IsSwitch(op)
    ensures LabelsAs(op, m, now)
  {
  }

  lemma {:induction false} ReenableLabels(op: Op, m: Meta, now: real)
    requires Inv(m) && IsReenable(op)
    ensures LabelsAs(op, m, now)
  {
  }

  /** For every operation: the stored label is expired afterwards iff the operation gives it, or it was and stays. */
  lemma {:induction false} StepLabels(op: Op, m: Meta, now: real)
    requires Inv(m)
    ensures LabelsAs(op, m, now)
  {
    if IsTraffic(op) {
      TrafficLabels(op, m, now);
    } else if IsRenewal(op) {
      RenewalLabels(op, m, now);
    } else if IsUpkeep(op) {
      UpkeepLabels(op, m, now);
    } else if IsRecovery(op) {
      RecoveryLabels(op, m, now);
    } else if IsSwitch(op) {
      SwitchLabels(op, m, now);
    } else {
      ReenableLabels(op, m, now);
    }
  }

  // The label that goes by the switches

  /** Disabled for quota, disabled, and cooling, in this order. */
  predicate GoesBySwitches(m: Meta) {
    && (m.disabledForQuota ==> m.poolStatus == Some(QuotaDisabled))
    && (!m.disabledForQuota && !m.enabled ==> m.poolStatus == Some(Disabled))
    && (!m.disabledForQuota && m.enabled && m.cooldownCount > 0 ==> m.poolStatus == Some(Cooldown))
  }

  lemma FailureGoesBySwitches(v: Meta, m: Meta, free: Option<FreeUsage>, empty: bool, handler: Handler, model: ModelId,
                              now: real)
    ensures GoesBySwitches(FailureOf(v, m, free, empty, handler, model, now))
  {
  }

  lemma {:induction false} TrafficGoesBySwitches(op: Op, m: Meta, now: real)
    requires IsTraffic(op) && !op.ReportSuccess?
    ensures GoesBySwitches(Step(op, m, now))
  {
    match op
    case ReportFailure(free, empty, handler, model) =>
      FailureGoesBySwitches(View(m, now), m, free, empty, handler, model, now);
    case _ =>
  }

  lemma SuccessGoesBySwitches(m: Meta, model: ModelId, now: real)
    requires Inv(m)
    ensures var n := LiveSuccess(m, model, now);
            if m.cooldownUntil.Some? && m.cooldownUntil.value > now then n.poolStatus == Some(Cooldown)
            else GoesBySwitches(n)
  {
  }

  /** There is nothing to write: no model named, no block to remove, nobody to switch on, no snapshot to save. */
  predicate WritesNothing(op: Op, m: Meta, now: real) {
    match op
    case BlockModel(model, _, _) => model == ""
    case UnblockModel(model) => model != "" && model !in m.blockedModels
    case PruneBlocks => forall model | model in m.blockedModels :: !IsLapsed(m.blockedModels[model], now)
    case ReenableProbeKicks => !DisabledByProbe(m)
    case SaveLastProbe(writes) => !writes
    case ClockPrune => true
    case _ => false
  }

  lemma NothingLapsedIff(blocked: map<ModelId, Block>, now: real)
    ensures LapsedModels(blocked, now) == {} <==> forall model | model in blocked :: !IsLapsed(blocked[model], now)
  {
    forall model | model in blocked && IsLapsed(blocked[model], now)
      ensures model in LapsedModels(blocked, now)
    {
    }
  }

  lemma {:induction false} UpkeepGoesBySwitches(op: Op, m: Meta, now: real)
    requires IsUpkeep(op)
    ensures if WritesNothing(op, m, now) then Step(op, m, now) == m else GoesBySwitches(Step(op, m, now))
  {
    if op.PruneBlocks? {
      NothingLapsedIff(m.blockedModels, now);
    }
  }

  lemma {:induction false} OthersGoBySwitches(op: Op, m: Meta, now: real)
    requires !IsTraffic(op) && !IsUpkeep(op)
    ensures if WritesNothing(op, m, now) then Step(op, m, now) == m else GoesBySwitches(Step(op, m, now))
  {
  }

  /** Whatever an operation writes, the label goes by the switches and the count, in all but one case: a success
      reported while the end marker lies ahead labels the account as cooling. */
  lemma {:induction false} LabelGoesBySwitches(op: Op, m: Meta, now: real)
    requires Inv(m)
    ensures var n := Step(op, m, now);
            if WritesNothing(op, m, now) then n == m
            else if op.ReportSuccess? && m.cooldownUntil.Some? && m.cooldownUntil.value > now
            then n.poolStatus == Some(Cooldown)
            else GoesBySwitches(n)
  {
    if op.ReportSuccess? {
      SuccessGoesBySwitches(m, op.model, now);
    } else if IsTraffic(op) {
      TrafficGoesBySwitches(op, m, now);
    } else if IsUpkeep(op) {
      UpkeepGoesBySwitches(op, m, now);
    } else {
      OthersGoBySwitches(op, m, now);
    }
  }

  // Over whole runs

  predicate RenewedAt(events: seq<Event>, k: nat, id: AccountId) {
    k < |events| && events[k].id == id && events[k].op == ClearExpired
  }

  function Before(metas: map<AccountId, Meta>, events: seq<Event>, i: nat, id: AccountId): Meta
    requires i <= |events|
  {
    Get(Run(metas, events[..i]), id)
  }

  predicate HeldAt(metas: map<AccountId, Meta>, events: seq<Event>, i: nat, id: AccountId) {
    i < |events| && events[i].id == id && Holds(events[i].op, Before(metas, events, i, id))
  }

  predicate LabelledAt(metas: map<AccountId, Meta>, events: seq<Event>, i: nat, id: AccountId) {
    i < |events| && events[i].id == id && Labels(events[i].op, Before(metas, events, i, id))
  }

  predicate UnlabelledAt(metas: map<AccountId, Meta>, events: seq<Event>, i: nat, id: AccountId) {
    i < |events| && events[i].id == id && Unlabels(events[i].op, Before(metas, events, i, id))
  }

  function Holdings(metas: map<AccountId, Meta>, events: seq<Event>, id: AccountId): nat -> bool {
    (i: nat) => HeldAt(metas, events, i, id)
  }

  function Clearings(events: seq<Event>, id: AccountId): nat -> bool {
    (i: nat) => RenewedAt(events, i, id)
  }

  function Labellings(metas: map<AccountId, Meta>, events: seq<Event>, id: AccountId): nat -> bool {
    (i: nat) => LabelledAt(metas, events, i, id)
  }

  function Unlabellings(metas: map<AccountId, Meta>, events: seq<Event>, id: AccountId): nat -> bool {
    (i: nat) => UnlabelledAt(metas, events, i, id)
  }

  /** A renewal failed, or a first expiry mark was set (or it began so), and the expiry was not cleared since. */
  ghost predicate UnclearedHold(metas: map<AccountId, Meta>, events: seq<Event>, id: AccountId) {
    Unlifted(IsRenewBlocking(Get(metas, id).lastRenewStatus),
             Holdings(metas, events, id), Clearings(events, id), |events|)
  }

  /** The record got the expired label (or began with it), and nothing that names another one came since. */
  ghost predicate UnclearedLabel(metas: map<AccountId, Meta>, events: seq<Event>, id: AccountId) {
    Unlifted(Get(metas, id).poolStatus == Some(Expired),
             Labellings(metas, events, id), Unlabellings(metas, events, id), |events|)
  }

  lemma BeforeInPrefix(metas: map<AccountId, Meta>, events: seq<Event>, n: nat, k: nat, id: AccountId)
    requires k < n <= |events|
    ensures HeldAt(metas, events, k, id) == HeldAt(metas, events[..n], k, id)
    ensures LabelledAt(metas, events, k, id) == LabelledAt(metas, events[..n], k, id)
    ensures UnlabelledAt(metas, events, k, id) == UnlabelledAt(metas, events[..n], k, id)
  {
    assert events[..n][..k] == events[..k];
  }

  lemma UnclearedHoldStep(metas: map<AccountId, Meta>, events: seq<Event>, id: AccountId)
    requires events != []
    ensures var n := |events| - 1;
            UnclearedHold(metas, events, id)
            <==> HeldAt(metas, events, n, id)
                 || (UnclearedHold(metas, events[..n], id) && !RenewedAt(events, n, id))
  {
    var n, prefix := |events| - 1, events[..|events| - 1];
    var sets, lifts := Holdings(metas, events, id), Clearings(events, id);
    var sets2, lifts2 := Holdings(metas, prefix, id), Clearings(prefix, id);
    forall k: nat | k < n
      ensures sets(k) == sets2(k) && lifts(k) == lifts2(k)
    {
      BeforeInPrefix(metas, events, n, k, id);
    }
    UnliftedGrows(IsRenewBlocking(Get(metas, id).lastRenewStatus), sets, lifts, sets2, lifts2, n);
  }

  lemma UnclearedLabelStep(metas: map<AccountId, Meta>, events: seq<Event>, id: AccountId)
    requires events != []
    ensures var n := |events| - 1;
            UnclearedLabel(metas, events, id)
            <==> LabelledAt(metas, events, n, id)
                 || (UnclearedLabel(metas, events[..n], id) && !UnlabelledAt(metas, events, n, id))
  {
    var n, prefix := |events| - 1, events[..|events| - 1];
    var sets, lifts := Labellings(metas, events, id), Unlabellings(metas, events, id);
    var sets2, lifts2 := Labellings(metas, prefix, id), Unlabellings(metas, prefix, id);
    forall k: nat | k < n
      ensures sets(k) == sets2(k) && lifts(k) == lifts2(k)
    {
      BeforeInPrefix(metas, events, n, k, id);
    }
    UnliftedGrows(Get(metas, id).poolStatus == Some(Expired), sets, lifts, sets2, lifts2, n);
  }

  lemma HoldAfterEvent(metas: map<AccountId, Meta>, e: Event, id: AccountId)
    requires PoolInv(metas) && id != ""
    ensures IsRenewBlocking(Get(Apply(metas, e), id).lastRenewStatus)
        <==> (e.id == id && Holds(e.op, Get(metas, id)))
             || (IsRenewBlocking(Get(metas, id).lastRenewStatus) && !(e.id == id && e.op == ClearExpired))
  {
    if e.id == id {
      RenewalHoldStepIff(e.op, Get(metas, id), e.now);
    }
  }

  lemma LabelAfterEvent(metas: map<AccountId, Meta>, e: Event, id: AccountId)
    requires PoolInv(metas) && id != ""
    ensures Get(Apply(metas, e), id).poolStatus == Some(Expired)
        <==> (e.id == id && Labels(e.op, Get(metas, id)))
             || (Get(metas, id).poolStatus == Some(Expired) && !(e.id == id && Unlabels(e.op, Get(metas, id))))
  {
    if e.id == id {
      StepLabels(e.op, Get(metas, id), e.now);
    }
  }

  lemma {:induction false} HoldIffUncleared(metas: map<AccountId, Meta>, events: seq<Event>, id: AccountId)
    requires PoolInv(metas) && id != ""
    ensures IsRenewBlocking(Get(Run(metas, events), id).lastRenewStatus) <==> UnclearedHold(metas, events, id)
  {
    if events != [] {
      var n := |events| - 1;
      RunKeepsInv(metas, events[..n]);
      HoldIffUncleared(metas, events[..n], id);
      UnclearedHoldStep(metas, events, id);
      HoldAfterEvent(Run(metas, events[..n]), events[n], id);
    }
  }

  lemma {:induction false} LabelIffUncleared(metas: map<AccountId, Meta>, events: seq<Event>, id: AccountId)
    requires PoolInv(metas) && id != ""
    ensures Get(Run(metas, events), id).poolStatus == Some(Expired) <==> UnclearedLabel(metas, events, id)
  {
    if events != [] {
      var n := |events| - 1;
      RunKeepsInv(metas, events[..n]);
      LabelIffUncleared(metas, events[..n], id);
      UnclearedLabelStep(metas, events, id);
      LabelAfterEvent(Run(metas, events[..n]), events[n], id);
    }
  }

  /** After every run and at every time an account is shown as expired exactly when a hold or a label still stands. */
  lemma ShownExpiredIff(metas: map<AccountId, Meta>, events: seq<Event>, id: AccountId, t: real)
    requires PoolInv(metas) && id != ""
    ensures View(Get(Run(metas, events), id), t).poolStatus == Some(Expired)
        <==> UnclearedHold(metas, events, id) || UnclearedLabel(metas, events, id)
  {
    HoldIffUncleared(metas, events, id);
    LabelIffUncleared(metas, events, id);
  }

  /**
   Once a renewal failure is recorded the account is labelled expired at every clock
   value until the expiry is cleared, whatever probes, enables, cooldown clears or
   live reports come in between.
   */
  lemma {:induction false} RenewalHoldLasts(
      metas: map<AccountId, Meta>, events: seq<Event>, i: nat, id: AccountId, t: real)
    requires PoolInv(metas) && id != ""
    requires i < |events| && events[i].id == id && RenewalFailureOp(events[i].op)
    requires forall k: nat :: i < k < |events| ==> !RenewedAt(events, k, id)
    ensures View(Get(Run(metas, events), id), t).poolStatus == Some(Expired)
  {
    assert Holdings(metas, events, id)(i);
    assert UnclearedHold(metas, events, id);
    ShownExpiredIff(metas, events, id, t);
  }
}
