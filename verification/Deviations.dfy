/** Inputs, reached by runs from an empty pool, on which the program departs from its own description. */
module Deviations {
  import opened Wrappers
  import opened PoolMeta
  import opened PoolOps
  import opened PoolRuns
  import opened Switches
  import opened Rotation
  import Tallies
  import AccountPool
  import InFlight

  const EMPTY: map<AccountId, Meta> := map[]

  function Record(events: seq<Event>): Meta {
    Get(Run(EMPTY, events), "a")
  }

  lemma RecordGoesOn(events: seq<Event>, was: Meta, op: Op, at: real, after: Meta)
    requires Record(events) == was && after == Step(op, was, at) && after.poolStatus.Some?
    ensures Record(events + [Event("a", op, at)]) == after
  {
    var e := Event("a", op, at);
    assert Run(EMPTY, events + [e]) == Apply(Run(EMPTY, events), e) by {
      RunOfOneMore(EMPTY, events, e);
    }
    StepIsUpdate(Run(EMPTY, events), e, after);
  }

  lemma FirstRecord(op: Op, after: Meta)
    requires after == Step(op, EmptyMeta, 0.0) && after.poolStatus.Some?
    ensures Record([Event("a", op, 0.0)]) == after
  {
    assert Record([]) == EmptyMeta;
    RecordGoesOn([], EmptyMeta, op, 0.0, after);
    assert [] + [Event("a", op, 0.0)] == [Event("a", op, 0.0)];
  }

  const KICK := Event("a", KickSoft, 0.0)
  const OFF := Event("a", SetEnabled(false), 1.0)
  const ON := Event("a", SetEnabled(true), 1.0)
  const QUOTA_OFF := Event("a", DisableForQuota("", ""), 1.0)
  const LATE_SUCCESS := Event("a", ReportSuccess(""), 2.0)
  const RENEWED := Event("a", ClearExpired, 0.0)
  const MARKED := Event("a", MarkExpired, 1.0)
  const PROBED := Event("a", ProbeOk(""), 2.0)
  const DURABLE := Event("a", BlockModel("m", "probe", None), 0.0)
  const ONE_MINUTE := Event("a", BlockModel("m", "upstream_error", Some(60.0)), 1.0)
  const DISABLED := Event("a", SetEnabled(false), 0.0)
  const RENEWED_LATER := Event("a", ClearExpired, 1.0)
  const QUOTA_DISABLED := Event("a", DisableForQuota("", ""), 0.0)
  const MODEL_GONE := Event("a", ReportFailure(None, false, ModelGoneHandler(3600.0), "m"), 0.0)
  const FREE_USAGE := Event("a", FreeUsageExhaustion(FreeUsage(""), ""), 1.0)

  lemma KickedRecord() returns (m: Meta)
    ensures m == SoftKicked(EmptyMeta, 0.0) == Record([KICK])
    ensures Inv(m) && m.cooldownCount > 0 && m.cooldownUntil == Some(PROBE_HOLD_COOLDOWN_SEC)
    ensures m.enabled && !m.disabledForQuota
  {
    m := SoftKicked(EmptyMeta, 0.0);
    SoftKickKeepsInv(EmptyMeta, 0.0);
    FirstRecord(KickSoft, m);
  }

  /** Enabled by hand after a failure, an account goes on cooling. */
  lemma EnabledAccountStillCools(t: real)
    ensures var m := Record([KICK, ON]); m.enabled && IsInCooldown(View(m, t), t)
  {
    var m := KickedRecord();
    var n := EnabledSet(m, true, 1.0);
    assert n.enabled && n.poolStatus.Some?;
    RecordGoesOn([KICK], m, SetEnabled(true), 1.0, n);
    assert [KICK] + [ON] == [KICK, ON];
    EnableEndsCooldownIff(m, 1.0, t);
  }

  lemma LateSuccessLabel(n: Meta)
    requires Inv(n) && (n.poolStatus == Some(Disabled) || n.poolStatus == Some(QuotaDisabled))
    requires n.cooldownUntil == Some(PROBE_HOLD_COOLDOWN_SEC)
    ensures var last := LiveSuccess(n, "", 2.0);
            && last.poolStatus == Some(Cooldown)
            && last.enabled == n.enabled && last.disabledForQuota == n.disabledForQuota
  {
    LateSuccessRelabelsDisabled(n, "", 2.0);
  }

  /** A success reported late makes an account disabled for quota look as if it were cooling. */
  lemma QuotaDisabledAccountLabelledCooling()
    ensures var m := Record([KICK, QUOTA_OFF, LATE_SUCCESS]); m.disabledForQuota && m.poolStatus == Some(Cooldown)
  {
    var m := KickedRecord();
    var n := QuotaDisabledSoft(m, "", "", 1.0);
    StepKeepsInv(DisableForQuota("", ""), m, 1.0);
    assert n.poolStatus == Some(QuotaDisabled) && n.cooldownUntil == m.cooldownUntil && n.disabledForQuota;
    RecordGoesOn([KICK], m, DisableForQuota("", ""), 1.0, n);
    assert [KICK] + [QUOTA_OFF] == [KICK, QUOTA_OFF];
    LateSuccessLabel(n);
    RecordGoesOn([KICK, QUOTA_OFF], n, ReportSuccess(""), 2.0, LiveSuccess(n, "", 2.0));
    assert [KICK, QUOTA_OFF] + [LATE_SUCCESS] == [KICK, QUOTA_OFF, LATE_SUCCESS];
  }

  /** The same for an account disabled by hand. */
  lemma DisabledAccountLabelledCooling()
    ensures var m := Record([KICK, OFF, LATE_SUCCESS]); !m.enabled && m.poolStatus == Some(Cooldown)
  {
    var m := KickedRecord();
    var n := EnabledSet(m, false, 1.0);
    EnabledSetKeepsInv(m, false, 1.0);
    assert n.poolStatus == Some(Disabled) && n.cooldownUntil == m.cooldownUntil && !n.enabled;
    RecordGoesOn([KICK], m, SetEnabled(false), 1.0, n);
    assert [KICK] + [OFF] == [KICK, OFF];
    LateSuccessLabel(n);
    RecordGoesOn([KICK, OFF], n, ReportSuccess(""), 2.0, LiveSuccess(n, "", 2.0));
    assert [KICK, OFF] + [LATE_SUCCESS] == [KICK, OFF, LATE_SUCCESS];
  }

  /** An expiry mark on an account renewed before is shown, and gone after the next successful probe. */
  lemma ExpiryMarkIsLost(t: real)
    ensures View(Record([RENEWED, MARKED]), t).poolStatus == Some(Expired)
    ensures View(Record([RENEWED, MARKED, PROBED]), t).poolStatus != Some(Expired)
  {
    var m := ExpiryCleared(EmptyMeta, 0.0);
    ExpiryClearKeepsInv(EmptyMeta, 0.0);
    assert m.lastRenewStatus == RenewOk && m.enabled && !m.disabledForQuota && m.cooldownUntil.None?;
    FirstRecord(ClearExpired, m);
    var n := MarkedExpired(m, 1.0);
    assert n.poolStatus.Some?;
    RecordGoesOn([RENEWED], m, MarkExpired, 1.0, n);
    assert [RENEWED] + [MARKED] == [RENEWED, MARKED];
    ExpiryMarkShowsIff(m, 1.0, t);
    var last := ProbeSucceeded(n, "", 2.0);
    assert last.poolStatus.Some?;
    RecordGoesOn([RENEWED, MARKED], n, ProbeOk(""), 2.0, last);
    assert [RENEWED, MARKED] + [PROBED] == [RENEWED, MARKED, PROBED];
    ExpiryMarkOutlivesProbe(m, 1.0, "", 2.0, t);
  }

  /** A durable block is over a minute after a one-minute block was laid over it. */
  lemma DurableBlockLapses()
    ensures IsModelBlocked(Record([DURABLE]), "m", true, 62.0)
    ensures !IsModelBlocked(Record([DURABLE, ONE_MINUTE]), "m", false, 62.0)
    ensures !IsModelBlocked(Record([DURABLE, ONE_MINUTE]), "m", true, 62.0)
  {
    var m := BlockedFor(EmptyMeta, "m", "probe", None, 0.0);
    FirstRecord(BlockModel("m", "probe", None), m);
    var n := BlockedFor(m, "m", "upstream_error", Some(60.0), 1.0);
    assert n.poolStatus.Some?;
    RecordGoesOn([DURABLE], m, BlockModel("m", "upstream_error", Some(60.0)), 1.0, n);
    assert [DURABLE] + [ONE_MINUTE] == [DURABLE, ONE_MINUTE];
  }

  /** One failure report with a free-usage error releases the marks of all three requests in flight. */
  lemma FailureReleasesThree()
    ensures var marks := InFlight.Run([InFlight.Pick("a", 0.0), InFlight.Pick("a", 0.0), InFlight.Pick("a", 0.0)]);
            var usage := FreeUsage("");
            EffectiveInflight(marks, "a", 1.0) == 3 &&
            var after := AccountPool.AfterFailure(marks, "a", Some(usage), UsageHandler(usage), "m", 1.0);
            EffectiveInflight(after, "a", 1.0) == 0
  {
    var p := InFlight.Pick("a", 0.0);
    assert [] + [p] == [p] && [p] + [p] == [p, p] && [p, p] + [p] == [p, p, p];
    InFlight.RunOfOneMore([], p);
    InFlight.RunOfOneMore([p], p);
    InFlight.RunOfOneMore([p, p], p);
    var marks := InFlight.Run([p, p, p]);
    var once := InFlight.Released(marks, "a", 1.0);
    InFlight.ReleaseCount(marks, "a", 1.0);
    InFlight.ReleaseCount(once, "a", 1.0);
    InFlight.ReleaseCount(InFlight.Released(once, "a", 1.0), "a", 1.0);
  }

  /** Renewing a token enables an account that was disabled by hand. */
  lemma RenewalEnables()
    ensures !Record([DISABLED]).enabled && Record([DISABLED, RENEWED_LATER]).enabled
  {
    var m := EnabledSet(EmptyMeta, false, 0.0);
    assert !m.enabled && !m.disabledForQuota && m.poolStatus.Some?;
    FirstRecord(SetEnabled(false), m);
    var n := ExpiryCleared(m, 1.0);
    assert n.enabled && n.poolStatus.Some?;
    RecordGoesOn([DISABLED], m, ClearExpired, 1.0, n);
    assert [DISABLED] + [RENEWED_LATER] == [DISABLED, RENEWED_LATER];
  }

  /** One report that the model is gone counts two failed requests. */
  lemma MissingModelCountsTwice()
    ensures var m := Record([MODEL_GONE]); m.failCount == 2 && m.requestCount == 2
  {
    var e, first := MODEL_GONE, Tallies.TallyOf(EmptyMeta);
    assert Tallies.TallyOf(Record([e])) == Tallies.Next(e.op, first, e.now) by {
      Tallies.RecordFollowsTally(EMPTY, [e], "a");
      Tallies.TallyRunOfOne(first, e);
    }
  }

  /** A free-usage error enables an account that was disabled for quota, and takes the quota mark off. */
  lemma FreeUsageErrorEnables()
    ensures Record([QUOTA_DISABLED]).disabledForQuota
    ensures var m := Record([QUOTA_DISABLED, FREE_USAGE]); m.enabled && !m.disabledForQuota
  {
    var m := QuotaDisabledSoft(EmptyMeta, "", "", 0.0);
    assert m.disabledForQuota && m.poolStatus.Some?;
    FirstRecord(DisableForQuota("", ""), m);
    var n := FreeUsageHit(m, FreeUsage(""), "", 1.0);
    assert n.enabled && !n.disabledForQuota by {
      FreeUsageSwitchesOn(m, FreeUsage(""), "", 1.0);
    }
    assert Record([QUOTA_DISABLED, FREE_USAGE]) == n by {
      assert n.poolStatus.Some?;
      RecordGoesOn([QUOTA_DISABLED], m, FreeUsageExhaustion(FreeUsage(""), ""), 1.0, n);
      assert [QUOTA_DISABLED] + [FREE_USAGE] == [QUOTA_DISABLED, FREE_USAGE];
    }
  }
}
