/** The status stack of an account: which failures it lists, and how many. */
module StatusStacks {
  import opened Wrappers
  import opened PoolMeta
  import opened PoolOps
  import opened PoolRuns
  import opened Tallies

  /** The fifty newest entries. */
  function Newest(s: seq<StatusEntry>): seq<StatusEntry> {
    if |s| <= 50 then s else s[|s| - 50..]
  }

  lemma NewestOfNewest(s: seq<StatusEntry>, e: StatusEntry)
    ensures Newest(Newest(s) + [e]) == Newest(s + [e])
  {
  }

  /** A free-usage error is what the operation records last. */
  predicate RecordsFreeUsage(op: Op) {
    op.FreeUsageExhaustion? || (op.ProbeError? && op.free.Some?) || (op.ReportFailure? && op.free.Some?)
  }

  /** The entry an operation adds to the stack, given how many probes have failed before it. */
  function EntryOf(op: Op, streak: nat, now: real): Option<StatusEntry> {
    match op
    case ReportFailure(_, empty, _, _) => Some(StatusEntry(if empty then EmptyUpstream else RequestFail, now))
    case ProbeError(_, _, _, _) => if Cools(op, streak) then Some(StatusEntry(ProbeFail, now)) else None
    case _ => None
  }

  /** What the stack and the count become. A kick counts, but leaves no entry. */
  predicate StacksAs(op: Op, m: Meta, n: Meta, now: real) {
    var entry := EntryOf(op, m.probeFailStreak, now);
    if entry.Some? then n.statusStack == Newest(m.statusStack + [entry.value]) && n.cooldownCount == |n.statusStack|
    else if IsRecovery(op) then n.statusStack == [] && n.cooldownCount == 0
    else n.statusStack == m.statusStack && n.cooldownCount == m.cooldownCount + if op.KickSoft? then 1 else 0
  }

  lemma FailureStack(m: Meta, empty: bool, handler: Handler, model: ModelId, now: real)
    ensures StacksAs(ReportFailure(None, empty, handler, model), m,
                     LiveFailure(m, None, empty, handler, model, now), now)
  {
    var h, v := Handled(m, handler, model, now), View(m, now);
    assert v.statusStack == m.statusStack;
    var n := FailureRecorded(h, v.statusStack, v.consecutiveFails + 1, None, empty, model, now);
    var stack := Pushed(m.statusStack, StatusEntry(if empty then EmptyUpstream else RequestFail, now));
    assert n.statusStack == stack && n.cooldownCount == |stack|;
  }

  lemma ProbeStack(m: Meta, model: ModelId, autoKick: bool, kickAt: nat, now: real)
    ensures StacksAs(ProbeError(None, model, autoKick, kickAt), m,
                     ProbeFailed(m, None, model, autoKick, kickAt, now), now)
  {
  }

  lemma SuccessStack(m: Meta, model: ModelId, now: real)
    ensures StacksAs(ReportSuccess(model), m, LiveSuccess(m, model, now), now)
  {
  }

  lemma KickStack(m: Meta, now: real)
    requires Inv(m)
    ensures StacksAs(KickSoft, m, SoftKicked(m, now), now)
  {
  }

  lemma {:induction false} TrafficStack(op: Op, m: Meta, now: real)
    requires Inv(m) && IsTraffic(op) && !RecordsFreeUsage(op)
    ensures StacksAs(op, m, Step(op, m, now), now)
  {
    match op
    case ReportSuccess(model) => SuccessStack(m, model, now);
    case ReportFailure(free, empty, handler, model) => FailureStack(m, empty, handler, model, now);
    case ProbeError(free, model, autoKick, kickAt) => ProbeStack(m, model, autoKick, kickAt, now);
    case KickSoft => KickStack(m, now);
  }

  lemma {:induction false} RenewalStack(op: Op, m: Meta, now: real)
    requires IsRenewal(op)
    ensures StacksAs(op, m, Step(op, m, now), now)
  {
  }

  lemma {:induction false} UpkeepStack(op: Op, m: Meta, now: real)
    requires IsUpkeep(op)
    ensures StacksAs(op, m, Step(op, m, now), now)
  {
  }

  lemma {:induction false} SwitchStack(op: Op, m: Meta, now: real)
    requires IsSwitch(op)
    ensures StacksAs(op, m, Step(op, m, now), now)
  {
  }

  lemma {:induction false} RecoveryStack(op: Op, m: Meta, now: real)
    requires IsRecovery(op)
    ensures StacksAs(op, m, Step(op, m, now), now)
  {
  }

  lemma {:induction false} ReenableStack(op: Op, m: Meta, now: real)
    requires IsReenable(op)
    ensures StacksAs(op, m, Step(op, m, now), now)
  {
  }

  /** For every operation that does not end in a free-usage error: a failure adds its entry to the stack as it was
      before any handler ran, and the count is its length; a recovery empties it; nothing else changes it. */
  lemma {:induction false} StepStack(op: Op, m: Meta, now: real)
    requires Inv(m) && !RecordsFreeUsage(op)
    ensures StacksAs(op, m, Step(op, m, now), now)
  {
    if IsTraffic(op) {
      TrafficStack(op, m, now);
    } else if IsRenewal(op) {
      RenewalStack(op, m, now);
    } else if IsUpkeep(op) {
      UpkeepStack(op, m, now);
    } else if IsSwitch(op) {
      SwitchStack(op, m, now);
    } else if IsRecovery(op) {
      RecoveryStack(op, m, now);
    } else {
      ReenableStack(op, m, now);
    }
  }

  // Whole runs

  /** The failures since the last recovery, after one more operation. */
  function NextListed(op: Op, streak: nat, listed: seq<StatusEntry>, now: real): seq<StatusEntry> {
    if IsRecovery(op) then []
    else
      match EntryOf(op, streak, now)
      case None => listed
      case Some(entry) => listed + [entry]
  }

  /** The failures of an account since its last recovery. */
  function Listed(first: Meta, events: seq<Event>, id: AccountId): seq<StatusEntry> {
    if events == [] then first.statusStack
    else
      var e, before := events[|events| - 1], events[..|events| - 1];
      if e.id != id then Listed(first, before, id)
      else NextListed(e.op, TallyRun(TallyOf(first), before, id).probeFails, Listed(first, before, id), e.now)
  }

  lemma {:induction false} StackAfterStep(op: Op, m: Meta, listed: seq<StatusEntry>, now: real)
    requires Inv(m) && !RecordsFreeUsage(op) && m.statusStack == Newest(listed)
    ensures Step(op, m, now).statusStack == Newest(NextListed(op, m.probeFailStreak, listed, now))
  {
    var entry := EntryOf(op, m.probeFailStreak, now);
    assert StacksAs(op, m, Step(op, m, now), now) by {
      StepStack(op, m, now);
    }
    if entry.Some? {
      NewestOfNewest(listed, entry.value);
    }
  }

  /** Over every run in which no free-usage error is recorded, the stack lists the account's failures since its last
      recovery, the fifty newest of them, with their kinds and times. */
  lemma {:induction false} StackListsFailures(metas: map<AccountId, Meta>, events: seq<Event>, id: AccountId)
    requires PoolInv(metas) && id != "" && |Get(metas, id).statusStack| <= 50
    requires forall e | e in events :: e.id == id ==> !RecordsFreeUsage(e.op)
    ensures Get(Run(metas, events), id).statusStack == Newest(Listed(Get(metas, id), events, id))
  {
    if events != [] {
      var n, first := |events| - 1, Get(metas, id);
      var e, before := events[n], events[..n];
      var m, listed := Get(Run(metas, before), id), Listed(first, before, id);
      assert e in events;
      assert m.statusStack == Newest(listed) by {
        assert forall d | d in before :: d in events;
        StackListsFailures(metas, before, id);
      }
      assert m.probeFailStreak == TallyRun(TallyOf(first), before, id).probeFails by {
        RecordFollowsTally(metas, before, id);
      }
      assert Inv(m) by {
        RunKeepsInv(metas, before);
      }
      if e.id == id {
        StackAfterStep(e.op, m, listed, e.now);
      }
    }
  }

  // Free-usage errors

  /** On an account that is not cooling, a free-usage error is the only entry, and counts one. */
  lemma FirstHitIsAlone(m: Meta, usage: FreeUsage, model: ModelId, now: real)
    requires Inv(m) && m.cooldownCount == 0
    ensures var n := FreeUsageHit(m, usage, model, now);
            n.statusStack == [StatusEntry(FreeUsageExhausted, now)] && n.cooldownCount == 1
  {
  }

  /** On an account shown as cooling, an error that comes less than thirty seconds after the last one, or when
      four are counted, leaves a stack that has entries as it is; another one is added, and the four newest are kept. */
  lemma FurtherHitStacksIff(m: Meta, usage: FreeUsage, model: ModelId, now: real)
    requires Inv(m) && m.poolStatus == Some(Cooldown) && !IsRenewBlocking(m.lastRenewStatus)
    requires m.statusStack != [] && m.statusStack[|m.statusStack| - 1].at > 0.0
    ensures var n, s := FreeUsageHit(m, usage, model, now), m.statusStack;
            var longer := s + [StatusEntry(FreeUsageExhausted, now)];
            if now - s[|s| - 1].at < 30.0 || m.cooldownCount >= 4 || |s| >= 4 then
              && n.statusStack == s
              && n.cooldownCount == if m.cooldownCount <= 4 && |s| <= 4 then NMax(m.cooldownCount, |s|) else 4
            else n.statusStack == longer && n.cooldownCount == |longer|
  {
  }

  /** On an account that only kicks made cool, an error is the only entry; the kicks go on counting, up to four, only
      when four are counted or a probe failed less than thirty seconds ago. */
  lemma HitAfterKicks(m: Meta, usage: FreeUsage, model: ModelId, now: real)
    requires Inv(m) && m.poolStatus == Some(Cooldown) && !IsRenewBlocking(m.lastRenewStatus) && m.statusStack == []
    ensures var n := FreeUsageHit(m, usage, model, now);
            && n.statusStack == [StatusEntry(FreeUsageExhausted, now)]
            && n.cooldownCount ==
               if m.cooldownCount >= 4 then 4
               else if now - m.lastProbeFailAt.GetOr(0.0) < 30.0 then m.cooldownCount
               else 1
  {
  }
}
