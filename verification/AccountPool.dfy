/**
 The account pool: stored records, rotation cursor and load marks, updated in place.

 Every operation is proved to be the corresponding event of `PoolRuns` or, when it goes
 over all accounts, a run of such events, so the run theorems there speak about
 sequences of these calls. The methods the operations are made of state the record they leave.
 */
module AccountPool {
  import opened Wrappers
  import opened Sequences
  import opened Scanning
  import opened PoolMeta
  import opened PoolOps
  import opened PoolRuns
  import opened Rotation
  import opened Sweeps
  import opened FailoverChain
  import opened StickyPath
  import InFlight

  /** The two pools differ at most in the given account. */
  predicate SameElsewhere(a: map<AccountId, Meta>, b: map<AccountId, Meta>, id: AccountId) {
    a - {id} == b - {id}
  }

  lemma UpdateElsewhereSame(a: map<AccountId, Meta>, b: map<AccountId, Meta>, id: AccountId, m: Meta)
    requires SameElsewhere(a, b, id)
    ensures a[id := m] == b[id := m]
  {
    assert a[id := m] == (a - {id})[id := m];
    assert b[id := m] == (b - {id})[id := m];
  }

  lemma LapsedSplit(blocked: map<ModelId, Block>, now: real)
    ensures blocked - LapsedModels(blocked, now) == LiveBlocks(blocked, now)
  {
  }

  lemma BlockIsUpdate(
      metas: map<AccountId, Meta>, id: AccountId, model: ModelId, source: string, ttl: Option<real>, now: real)
    requires id != ""
    ensures var after := Apply(metas, Event(id, Op.BlockModel(model, source, ttl), now));
            Get(after, id) == BlockedFor(Get(metas, id), model, source, ttl, now) && SameElsewhere(after, metas, id)
  {
  }

  function AfterHandler(
      marks: map<AccountId, Mark>, id: AccountId, handler: Handler, model: ModelId, now: real): map<AccountId, Mark>
  {
    if model != "" && handler.UsageHandler? then InFlight.Released(marks, id, now) else marks
  }

  function AfterRecording(
      marks: map<AccountId, Mark>, id: AccountId, free: Option<FreeUsage>, now: real): map<AccountId, Mark>
  {
    if free.Some? then InFlight.Released(marks, id, now) else marks
  }

  /** A failure report releases its own mark, and each free-usage cooldown it leads to releases another. */
  function AfterFailure(
      marks: map<AccountId, Mark>, id: AccountId, free: Option<FreeUsage>, handler: Handler, model: ModelId,
      now: real)
    : map<AccountId, Mark>
  {
    AfterRecording(AfterHandler(InFlight.Released(marks, id, now), id, handler, model, now), id, free, now)
  }

  /** A failure report takes exactly one request off those in flight iff no free-usage cooldown
      comes with it, or only one was in flight. */
  lemma FailureReleasesOneIff(
      marks: map<AccountId, Mark>, id: AccountId, free: Option<FreeUsage>, handler: Handler, model: ModelId,
      now: real)
    requires EffectiveInflight(marks, id, now) > 0
    ensures EffectiveInflight(AfterFailure(marks, id, free, handler, model, now), id, now)
         == EffectiveInflight(marks, id, now) - 1
        <==> (free.None? && !(model != "" && handler.UsageHandler?)) || EffectiveInflight(marks, id, now) == 1
  {
    var once := InFlight.Released(marks, id, now);
    InFlight.ReleaseCount(marks, id, now);
    InFlight.ReleaseCount(once, id, now);
    InFlight.ReleaseCount(AfterHandler(once, id, handler, model, now), id, now);
  }

  /** The load marks and soft-use times once an account is noted; the nameless account is not. */
  predicate MarkedFrom(
      marks: map<AccountId, Mark>, softUsed: map<AccountId, real>,
      marksAfter: map<AccountId, Mark>, softUsedAfter: map<AccountId, real>, id: AccountId, now: real)
  {
    && marksAfter == (if id == "" then marks else InFlight.Noted(marks, id, now))
    && softUsedAfter == (if id == "" then softUsed else softUsed[id := now])
  }

  /** The same after a pick: lapsed marks are purged first, unless the mode is round robin. */
  predicate MarkedPick(
      marks: map<AccountId, Mark>, softUsed: map<AccountId, real>,
      marksAfter: map<AccountId, Mark>, softUsedAfter: map<AccountId, real>, id: AccountId, mode: Mode, now: real)
  {
    var left := if mode == RoundRobin then marks else InFlight.Purged(marks, now);
    MarkedFrom(left, softUsed, marksAfter, softUsedAfter, id, now)
  }

  /** The same after a full-path chain: its head is noted, and nothing changes when it is empty. */
  predicate MarkedHead(
      marks: map<AccountId, Mark>, softUsed: map<AccountId, real>,
      marksAfter: map<AccountId, Mark>, softUsedAfter: map<AccountId, real>, chain: seq<Creds>, now: real)
  {
    if chain == [] then marksAfter == marks && softUsedAfter == softUsed
    else MarkedFrom(InFlight.Purged(marks, now), softUsed, marksAfter, softUsedAfter, chain[0].authKey, now)
  }

  /** A noted account has one more request in flight and was used just now; no other account is touched. */
  lemma NotedIsCounted(
      marks: map<AccountId, Mark>, softUsed: map<AccountId, real>,
      marksAfter: map<AccountId, Mark>, softUsedAfter: map<AccountId, real>, id: AccountId, now: real, other: AccountId)
    requires MarkedFrom(marks, softUsed, marksAfter, softUsedAfter, id, now) && id != "" && now >= 0.0
    ensures EffectiveInflight(marksAfter, id, now) == EffectiveInflight(marks, id, now) + 1
    ensures SoftUsedAt(softUsedAfter, id, now) == now
    ensures other != id ==>
              && EffectiveInflight(marksAfter, other, now) == EffectiveInflight(marks, other, now)
              && SoftUsedAt(softUsedAfter, other, now) == SoftUsedAt(softUsed, other, now)
  {
  }

  /** Except in round robin, a pick leaves no lapsed mark behind. */
  lemma PickLeavesNoLapsed(
      marks: map<AccountId, Mark>, softUsed: map<AccountId, real>,
      marksAfter: map<AccountId, Mark>, softUsedAfter: map<AccountId, real>, id: AccountId, mode: Mode, now: real)
    requires MarkedPick(marks, softUsed, marksAfter, softUsedAfter, id, mode, now) && mode != RoundRobin
    ensures forall other | other in marksAfter :: marksAfter[other].expiresAt > now
  {
  }

  /** Nor does a full-path chain. */
  lemma ChainLeavesNoLapsed(
      marks: map<AccountId, Mark>, softUsed: map<AccountId, real>,
      marksAfter: map<AccountId, Mark>, softUsedAfter: map<AccountId, real>, chain: seq<Creds>, now: real)
    requires MarkedHead(marks, softUsed, marksAfter, softUsedAfter, chain, now) && chain != []
    ensures forall other | other in marksAfter :: marksAfter[other].expiresAt > now
  {
  }

  class AccountPool {
    var metas: map<AccountId, Meta>
    var rrIndex: nat
    var marks: map<AccountId, Mark>
    var softUsed: map<AccountId, real>

    constructor ()
      ensures metas == map[] && rrIndex == 0 && marks == map[] && softUsed == map[]
      ensures PoolInv(metas)
    {
      metas, rrIndex, marks, softUsed := map[], 0, map[], map[];
    }

    // ---------------------------------------------------------- storage

    method PatchMeta(id: AccountId, patch: Patch, now: real)
      modifies `metas
      ensures metas == if id == "" then old(metas) else old(metas)[id := Patched(Get(old(metas), id), patch, now)]
    {
      if id == "" {
        return;
      }
      var meta := ApplyPatch(Get(metas, id), patch);
      meta := meta.(poolStatus := Some(DeriveStatus(meta, now)));
      metas := metas[id := meta];
    }

    method TouchStats(
        id: AccountId, success: bool, cooldownUntil: Option<real>, fails: Option<nat>, preserve: bool, now: real)
      modifies `metas
      ensures metas == if id == "" then old(metas)
                       else old(metas)[id := Touched(Get(old(metas), id), success, cooldownUntil, fails, preserve, now)]
    {
      if id == "" {
        return;
      }
      var meta := Get(metas, id);
      var cooling := meta.cooldownUntil.Some? && meta.cooldownUntil.value > now;
      meta := meta.(weight := NMax(1, meta.weight), requestCount := meta.requestCount + 1, lastUsedAt := Some(now));
      if success {
        meta := meta.(successCount := meta.successCount + 1, consecutiveFails := 0);
      } else {
        meta := meta.(failCount := meta.failCount + 1, consecutiveFails := fails.GetOr(meta.consecutiveFails + 1));
        if cooldownUntil.Some? {
          meta := meta.(cooldownUntil := cooldownUntil);
        }
      }
      if preserve && cooling {
        meta := meta.(poolStatus := Some(Cooldown));
      } else {
        meta := meta.(poolStatus := Some(DeriveStatus(meta, now)));
      }
      metas := metas[id := meta];
    }

    // ---------------------------------------------------------- load marks

    method PurgeMarks(now: real)
      modifies `marks
      ensures marks == InFlight.Purged(old(marks), now)
    {
      var todo := marks.Keys;
      while todo != {}
        invariant todo <= old(marks).Keys
        invariant marks == map id | id in old(marks) && (id in todo || old(marks)[id].expiresAt > now) :: old(marks)[id]
      {
        var id :| id in todo;
        if marks[id].expiresAt <= now {
          marks := marks - {id};
        }
        todo := todo - {id};
      }
    }

    method NoteAccountPick(id: AccountId, now: real)
      modifies `marks, `softUsed
      ensures marks == if id == "" then old(marks) else InFlight.Noted(old(marks), id, now)
      ensures softUsed == if id == "" then old(softUsed) else old(softUsed)[id := now]
    {
      if id == "" {
        return;
      }
      var n: nat := 0;
      if id in marks && marks[id].expiresAt > now {
        n := marks[id].count;
      }
      marks := marks[id := Mark(n + 1, now + INFLIGHT_TTL)];
      softUsed := softUsed[id := now];
    }

    method ReleaseAccountPick(id: AccountId, now: real)
      modifies `marks
      ensures marks == if id == "" then old(marks) else InFlight.Released(old(marks), id, now)
    {
      if id == "" {
        return;
      }
      if id !in marks || marks[id].expiresAt <= now || marks[id].count <= 1 {
        marks := marks - {id};
      } else {
        marks := marks[id := Mark(marks[id].count - 1, now + INFLIGHT_TTL)];
      }
    }

    // ---------------------------------------------------------- model blocks

    method AddBlock(id: AccountId, model: ModelId, source: string, ttl: Option<real>, now: real)
      modifies `metas
      ensures metas == Apply(old(metas), Event(id, Op.BlockModel(model, source, ttl), now))
    {
      if id == "" || model == "" {
        return;
      }
      var blocked := Get(metas, id).blockedModels;
      var entry := Block(source, now, None);
      if ttl.Some? && ttl.value > 0.0 {
        var remaining := 0.0;
        if model in blocked && blocked[model].until.Some? {
          remaining := RMax(0.0, blocked[model].until.value - now);
        }
        entry := entry.(until := Some(now + (remaining + ttl.value)));
      }
      blocked := blocked[model := entry];
      PatchMeta(id, Patch(blockedModels := Put(blocked)), now);
    }

    method RemoveBlock(id: AccountId, model: ModelId, now: real)
      modifies `metas
      ensures metas == Apply(old(metas), Event(id, Op.UnblockModel(model), now))
    {
      if id == "" {
        return;
      }
      var blocked := Get(metas, id).blockedModels;
      if model == "" {
        PatchMeta(id, Patch(blockedModels := Put(map[])), now);
      } else if model in blocked {
        PatchMeta(id, Patch(blockedModels := Put(blocked - {model})), now);
      }
    }

    static method DropLapsed(blocked: map<ModelId, Block>, now: real) returns (left: map<ModelId, Block>, removed: nat)
      ensures left == LiveBlocks(blocked, now)
      ensures removed == |LapsedModels(blocked, now)|
    {
      left, removed := blocked, 0;
      ghost var lapsed := LapsedModels(blocked, now);
      var todo := blocked.Keys;
      assert lapsed - todo == {};
      while todo != {}
        invariant todo <= blocked.Keys
        invariant left == Without(blocked, lapsed - todo)
        invariant removed == |lapsed - todo|
      {
        var model :| model in todo;
        ScanOne(blocked, lapsed, todo, model);
        if IsLapsed(blocked[model], now) {
          left := left - {model};
          removed := removed + 1;
        }
        todo := todo - {model};
      }
      assert lapsed - todo == lapsed;
      LapsedSplit(blocked, now);
    }

    method PruneExpiredBlocksOf(id: AccountId, now: real) returns (removed: nat)
      modifies `metas
      ensures metas == Apply(old(metas), Event(id, Op.PruneBlocks, now))
      ensures removed == if id == "" then 0 else |LapsedModels(Get(old(metas), id).blockedModels, now)|
    {
      removed := 0;
      if id == "" {
        return;
      }
      var left;
      left, removed := DropLapsed(Get(metas, id).blockedModels, now);
      if removed > 0 {
        PatchMeta(id, Patch(blockedModels := Put(left)), now);
        ApplyIsUpdate(old(metas), Event(id, Op.PruneBlocks, now));
      }
    }

    /** Every account's lapsed blocks; `events` are the same clean-up as events of a run. */
    method PruneExpiredBlocks(now: real) returns (removed: nat, ghost events: seq<Event>)
      modifies `metas
      ensures Sweeping(old(metas), metas, {}, Op.PruneBlocks, events, now)
      ensures removed == |LapsedEntries(old(metas), old(metas).Keys, now)|
    {
      ghost var was := metas;
      removed, events := 0, [];
      var todo := metas.Keys;
      assert was.Keys - todo == {};
      while todo != {}
        invariant Sweeping(was, metas, todo, Op.PruneBlocks, events, now)
        invariant removed == LapsedOutside(was, todo, now)
      {
        var id :| id in todo;
        ghost var e := Event(id, Op.PruneBlocks, now);
        ghost var next, longer := Apply(metas, e), events + [e];
        SweepStep(was, metas, todo, id, Op.PruneBlocks, events, now);
        LapsedOutsideGrows(was, todo, id, now);
        var n := PruneExpiredBlocksOf(id, now);
        assert metas == next;
        assert removed + n == LapsedOutside(was, todo - {id}, now);
        removed, events, todo := removed + n, longer, todo - {id};
      }
      assert was.Keys - {} == was.Keys;
    }

    // ---------------------------------------------------------- cooldown

    /** The stack, count and marker a free-usage error leaves on an account viewed as `meta`. */
    static method StackFreeUsage(meta: Meta, now: real) returns (stack: seq<StatusEntry>, newCount: nat, until: real)
      ensures stack == FreeUsageStack(meta, now)
      ensures newCount == FreeUsageCount(meta, now)
      ensures until == FreeUsageUntil(meta, now)
    {
      var prevStack := meta.statusStack;
      var prevCount := meta.cooldownCount;
      if prevStack != [] {
        prevCount := NMax(prevCount, |prevStack|);
      }
      var existing := meta.cooldownUntil;
      var active := (existing.Some? && existing.value > now) || meta.poolStatus == Some(Cooldown);
      var lastHit := 0.0;
      if prevStack != [] {
        lastHit := prevStack[|prevStack| - 1].at;
      }
      if lastHit <= 0.0 {
        lastHit := meta.lastProbeFailAt.GetOr(0.0);
      }
      var recent := now - lastHit < FREE_USAGE_RESTACK_MIN_SEC;
      var restack := true;
      if active && recent {
        restack := false;
      }
      if prevCount >= FREE_USAGE_STACK_MAX && active {
        restack := false;
      }
      var entry := StatusEntry(FreeUsageExhausted, now);
      stack := prevStack;
      if restack {
        stack := stack + [entry];
        if |stack| > STATUS_STACK_MAX {
          stack := stack[|stack| - STATUS_STACK_MAX..];
        }
        if |stack| > FREE_USAGE_STACK_MAX {
          stack := stack[|stack| - FREE_USAGE_STACK_MAX..];
        }
        newCount := NMin(FREE_USAGE_STACK_MAX, NMax(1, |stack|));
      } else {
        if stack == [] {
          stack := [entry];
        }
        newCount := NMax(1, NMin(FREE_USAGE_STACK_MAX, if prevCount == 0 then 1 else prevCount));
      }
      until := now + PROBE_HOLD_COOLDOWN_SEC;
      if active && existing.Some? {
        until := RMax(existing.value, until);
      }
    }

    method ApplyFreeUsageCooldown(id: AccountId, usage: FreeUsage, model: ModelId, now: real)
      modifies `metas, `marks
      ensures metas == Apply(old(metas), Event(id, FreeUsageExhaustion(usage, model), now))
      ensures id != "" ==> metas == old(metas)[id := FreeUsageHit(Get(old(metas), id), usage, model, now)]
      ensures marks == if id == "" then old(marks) else InFlight.Released(old(marks), id, now)
    {
      if id == "" {
        return;
      }
      CoolForFreeUsage(id, usage, model, now);
      ReleaseAccountPick(id, now);
      ApplyIsUpdate(old(metas), Event(id, FreeUsageExhaustion(usage, model), now));
    }

    method CoolForFreeUsage(id: AccountId, usage: FreeUsage, model: ModelId, now: real)
      requires id != ""
      modifies `metas
      ensures metas == old(metas)[id := FreeUsageHit(Get(old(metas), id), usage, model, now)]
    {
      var meta := View(Get(metas, id), now);
      var stack, newCount, until := StackFreeUsage(meta, now);
      var mid := if usage.model != "" then usage.model else model;
      AddBlock(id, mid, "temp_usage", Some(SoftBlockTtl(newCount)), now);
      BlockIsUpdate(old(metas), id, mid, "temp_usage", Some(SoftBlockTtl(newCount)), now);
      var patch := Patch(poolStatus := Put(Some(Cooldown)), cooldownCount := Put(newCount), statusStack := Put(stack),
                         cooldownUntil := Put(Some(until)), enabled := Put(true), disabledReason := Put(""),
                         disabledSource := Put(""), disabledForQuota := Put(false), lastProbeFailAt := Put(Some(now)));
      assert patch == FreeUsagePatch(meta, now);
      PatchMeta(id, patch, now);
    }

    method KickFromPool(id: AccountId, reason: string, cooldownSec: Option<real>, now: real)
      modifies `metas
      ensures var soft := cooldownSec.Some? && cooldownSec.value > 0.0;
              && metas == Apply(old(metas), Event(id, if soft then KickSoft else KickHard(reason), now))
              && (soft && id != "" ==> metas == old(metas)[id := SoftKicked(Get(old(metas), id), now)])
    {
      if id == "" {
        return;
      }
      if cooldownSec.Some? && cooldownSec.value > 0.0 {
        KickIntoCooldown(id, now);
        ApplyIsUpdate(old(metas), Event(id, KickSoft, now));
      } else {
        PatchMeta(id, Patch(enabled := Put(false), disabledReason := Put(reason),
                            poolStatus := Put(Some(Disabled))), now);
        ApplyIsUpdate(old(metas), Event(id, KickHard(reason), now));
      }
    }

    method KickIntoCooldown(id: AccountId, now: real)
      requires id != ""
      modifies `metas
      ensures metas == old(metas)[id := SoftKicked(Get(old(metas), id), now)]
    {
      var meta := View(Get(metas, id), now);
      var count := meta.cooldownCount;
      if count == 0 && IsInCooldown(meta, now) {
        count := 1;
      }
      count := count + 1;
      var until := now + PROBE_HOLD_COOLDOWN_SEC;
      PatchMeta(id, Patch(cooldownCount := Put(count), poolStatus := Put(Some(Cooldown)),
                          cooldownUntil := Put(Some(until))), now);
      TouchStats(id, false, Some(until), Some(NMax(1, meta.consecutiveFails)), false, now);
    }

    method ClearAccountCooldown(id: AccountId, now: real)
      modifies `metas
      ensures metas == Apply(old(metas), Event(id, ClearCooldown, now))
      ensures id != "" ==> NeverCooling(Get(metas, id))
    {
      ClearingEndsCooldown(Get(metas, id), now);
      if id == "" {
        return;
      }
      PatchMeta(id, Patch(cooldownCount := Put(0), statusStack := Put([]), cooldownUntil := Put(None),
                          consecutiveFails := Put(0), probeFailStreak := Put(0), poolStatus := Put(Some(Normal))), now);
    }

    /** Clock-driven expiry is disabled: cooling ends by a successful probe or by hand. */
    method PruneExpiredCooldowns(id: AccountId, now: real) returns (cleared: nat)
      modifies `metas
      ensures metas == Apply(old(metas), Event(id, ClockPrune, now)) && cleared == 0
    {
      cleared := 0;
    }

    // ---------------------------------------------------------- live traffic

    /** Settle a live success of an account that is not cooling. */
    method SettleSuccess(id: AccountId, model: ModelId, now: real)
      requires id != "" && id in metas
      modifies `metas
      ensures metas == old(metas)[id := SuccessSettled(old(metas)[id], model, now)]
    {
      var meta := View(metas[id], now);
      if meta.probeFailStreak != 0 {
        PatchMeta(id, Patch(probeFailStreak := Put(0)), now);
      }
      if model != "" && model in meta.blockedModels {
        var entry := meta.blockedModels[model];
        if entry.until.Some? || IsTemporarySource(entry.source) {
          ApplyStored(metas, Event(id, Op.UnblockModel(model), now));
          RemoveBlock(id, model, now);
        }
      }
    }

    method ReportSuccess(id: AccountId, model: ModelId, now: real)
      modifies `metas, `marks
      ensures metas == Apply(old(metas), Event(id, Op.ReportSuccess(model), now))
      ensures marks == if id == "" then old(marks) else InFlight.Released(old(marks), id, now)
    {
      if id == "" {
        return;
      }
      ReleaseAccountPick(id, now);
      var stillCooling := IsInCooldown(View(Get(metas, id), now), now);
      SuccessHasLabel(Get(metas, id), model, now);
      ApplyIsUpdate(metas, Event(id, Op.ReportSuccess(model), now));
      TouchStats(id, true, None, Some(0), true, now);
      if !stillCooling {
        SettleSuccess(id, model, now);
      }
    }

    method HandleUpstreamErrorForModel(id: AccountId, handler: Handler, model: ModelId, now: real)
      requires id != ""
      modifies `metas, `marks
      ensures Get(metas, id) == Handled(Get(old(metas), id), handler, model, now)
      ensures SameElsewhere(metas, old(metas), id)
      ensures marks == AfterHandler(old(marks), id, handler, model, now)
    {
      if model != "" {
        match handler {
          case UsageHandler(usage) =>
            ApplyFreeUsageCooldown(id, usage, model, now);
          case ModelGoneHandler(ttl) =>
            AddBlock(id, model, "upstream_error", Some(ttl), now);
            BlockIsUpdate(old(metas), id, model, "upstream_error", Some(ttl), now);
            KickFromPool(id, "", Some(30.0), now);
          case NoHandler =>
        }
      }
    }

    /** Push one failure onto the stack read earlier, cool the account down and count the failure. */
    method RecordRequestFailure(id: AccountId, seen: seq<StatusEntry>, entry: StatusEntry, streak: nat, now: real)
      requires id != ""
      modifies `metas
      ensures var cooled := Patched(Get(old(metas), id), CoolingPatch(Pushed(seen, entry), now), now);
              var until := Some(now + PROBE_HOLD_COOLDOWN_SEC);
              metas == old(metas)[id := Touched(cooled, false, until, Some(streak), false, now)]
    {
      var stack := seen + [entry];
      if |stack| > STATUS_STACK_MAX {
        stack := stack[|stack| - STATUS_STACK_MAX..];
      }
      var until := now + PROBE_HOLD_COOLDOWN_SEC;
      PatchMeta(id, Patch(statusStack := Put(stack), cooldownCount := Put(|stack|), poolStatus := Put(Some(Cooldown)),
                          cooldownUntil := Put(Some(until))), now);
      TouchStats(id, false, Some(until), Some(streak), false, now);
    }

    method RecordFailure(
        id: AccountId, seen: seq<StatusEntry>, streak: nat, free: Option<FreeUsage>, emptyUpstream: bool,
        model: ModelId, now: real)
      requires id != ""
      modifies `metas, `marks
      ensures metas == old(metas)[id := FailureRecorded(Get(old(metas), id), seen, streak,
                                                        free, emptyUpstream, model, now)]
      ensures marks == AfterRecording(old(marks), id, free, now)
    {
      if free.Some? {
        ApplyFreeUsageCooldown(id, free.value, model, now);
        TouchStats(id, false, Get(metas, id).cooldownUntil, Some(streak), true, now);
      } else {
        var kind := if emptyUpstream then EmptyUpstream else RequestFail;
        RecordRequestFailure(id, seen, StatusEntry(kind, now), streak, now);
      }
    }

    method ReportFailure(
        id: AccountId, free: Option<FreeUsage>, emptyUpstream: bool, handler: Handler, model: ModelId, now: real)
      modifies `metas, `marks
      ensures metas == Apply(old(metas), Event(id, Op.ReportFailure(free, emptyUpstream, handler, model), now))
      ensures marks == if id == "" then old(marks)
                       else AfterFailure(old(marks), id, free, handler, model, now)
    {
      if id == "" {
        return;
      }
      ReleaseAccountPick(id, now);
      var meta := View(Get(metas, id), now);
      FailureIsUpdate(metas, id, free, emptyUpstream, handler, model, now);
      HandleAndRecord(id, meta, free, emptyUpstream, handler, model, now);
    }

    /** `meta` was read before the handler runs. */
    method HandleAndRecord(
        id: AccountId, meta: Meta, free: Option<FreeUsage>, emptyUpstream: bool,
        handler: Handler, model: ModelId, now: real)
      requires id != ""
      modifies `metas, `marks
      ensures metas == old(metas)[id := FailureOf(meta, Get(old(metas), id), free, emptyUpstream, handler, model, now)]
      ensures marks == AfterRecording(AfterHandler(old(marks), id, handler, model, now), id, free, now)
    {
      HandleUpstreamErrorForModel(id, handler, model, now);
      label handled:
      RecordFailure(id, meta.statusStack, meta.consecutiveFails + 1, free, emptyUpstream, model, now);
      UpdateElsewhereSame(old@handled(metas), old(metas), id, metas[id]);
    }

    // ---------------------------------------------------------- probes

    method RecordProbeSuccess(id: AccountId, model: ModelId, now: real)
      requires id != ""
      modifies `metas
      ensures metas == Apply(old(metas), Event(id, ProbeOk(model), now))
    {
      var meta := View(Get(metas, id), now);
      var patch := Patch(probeFailStreak := Put(0), consecutiveFails := Put(0), cooldownCount := Put(0),
                         statusStack := Put([]), cooldownUntil := Put(None), poolStatus := Put(Some(Normal)));
      if model != "" && model in meta.blockedModels {
        var entry := meta.blockedModels[model];
        if entry.until.Some? || entry.source in {"temp_usage", "soft", "temporary", "probe", ""} {
          patch := patch.(blockedModels := Put(meta.blockedModels - {model}));
        }
      }
      if ProbeReenables(meta) {
        patch := patch.(enabled := Put(true), disabledReason := Put(""), disabledSource := Put(""));
      }
      PatchMeta(id, patch, now);
      ApplyIsUpdate(old(metas), Event(id, ProbeOk(model), now));
    }

    method RecordProbeFailure(
        id: AccountId, model: ModelId, free: Option<FreeUsage>, autoKick: bool, kickAt: nat, now: real)
      requires id != ""
      modifies `metas, `marks
      ensures metas == old(metas)[id := ProbeFailed(Get(old(metas), id), free, model, autoKick, kickAt, now)]
      ensures marks == AfterRecording(old(marks), id, free, now)
    {
      var meta := View(Get(metas, id), now);
      if free.Some? {
        ApplyFreeUsageCooldown(id, free.value, model, now);
      }
      var patch := FailedProbePatch(meta, free, autoKick, kickAt, now);
      PatchMeta(id, patch, now);
    }

    static method FailedProbePatch(
        meta: Meta, free: Option<FreeUsage>, autoKick: bool, kickAt: nat, now: real)
      returns (patch: Patch)
      ensures patch == ProbeFailurePatch(meta, free, autoKick, kickAt, now)
    {
      var streak := meta.probeFailStreak + 1;
      patch := Patch(probeFailStreak := Put(streak), lastProbeFailAt := Put(Some(now)));
      if free.None? && autoKick && streak >= kickAt {
        var stack := meta.statusStack + [StatusEntry(ProbeFail, now)];
        if |stack| > STATUS_STACK_MAX {
          stack := stack[|stack| - STATUS_STACK_MAX..];
        }
        patch := patch.(statusStack := Put(stack), cooldownCount := Put(|stack|), poolStatus := Put(Some(Cooldown)),
                        cooldownUntil := Put(Some(now + PROBE_HOLD_COOLDOWN_SEC)));
      }
    }

    method RecordModelProbeOutcome(
        id: AccountId, model: ModelId, available: bool, free: Option<FreeUsage>, autoKick: bool, kickAt: nat,
        now: real)
      modifies `metas, `marks
      ensures var op := if available then ProbeOk(model) else ProbeError(free, model, autoKick, kickAt);
              metas == Apply(old(metas), Event(id, op, now))
      ensures marks == if id == "" || available then old(marks) else AfterRecording(old(marks), id, free, now)
    {
      if id == "" {
        return;
      }
      if available {
        RecordProbeSuccess(id, model, now);
      } else {
        RecordProbeFailure(id, model, free, autoKick, kickAt, now);
        ApplyIsUpdate(old(metas), Event(id, ProbeError(free, model, autoKick, kickAt), now));
      }
    }

    // ---------------------------------------------------------- renewal

    method MarkAccountExpired(id: AccountId, now: real)
      modifies `metas
      ensures metas == Apply(old(metas), Event(id, MarkExpired, now))
    {
      var cur := Get(metas, id);
      PatchMeta(id, Patch(poolStatus := Put(Some(Expired)),
                          tokenExpiredAt := Put(Some(cur.tokenExpiredAt.GetOr(now))),
                          lastRenewStatus := Put(if cur.lastRenewStatus == NoRenew then RenewExpired
                                                 else cur.lastRenewStatus)), now);
    }

    method ClearAccountExpired(id: AccountId, now: real)
      modifies `metas
      ensures metas == Apply(old(metas), Event(id, ClearExpired, now))
      ensures id != "" ==> NeverShownExpired(Get(metas, id))
    {
      ClearedExpiryIsNotShown(Get(metas, id), now);
      var cur := Get(metas, id);
      var patch := Patch(poolStatus := Put(Some(Normal)), tokenExpiredAt := Put(None), renewFailCount := Put(0),
                         lastRenewStatus := Put(RenewOk));
      if !cur.disabledForQuota {
        patch := patch.(enabled := Put(true));
        if cur.disabledSource in {"renew_fail_no_sso", "kick"} || cur.lastRenewStatus == NoSsoRemoved {
          patch := patch.(disabledReason := Put(""), disabledSource := Put(""));
        }
      }
      PatchMeta(id, patch, now);
    }

    method RecordRenewalFailure(id: AccountId, now: real) returns (n: nat)
      modifies `metas
      ensures metas == Apply(old(metas), Event(id, RecordRenewFailure, now))
      ensures n == if id == "" then 0 else Get(old(metas), id).renewFailCount + 1
      ensures id != "" ==> AlwaysShownExpired(Get(metas, id))
    {
      RenewalMarksShow(Get(metas, id), now);
      if id == "" {
        return 0;
      }
      var cur := Get(metas, id);
      n := cur.renewFailCount + 1;
      PatchMeta(id, Patch(poolStatus := Put(Some(Expired)), tokenExpiredAt := Put(Some(cur.tokenExpiredAt.GetOr(now))),
                          renewFailCount := Put(n), lastRenewStatus := Put(RenewFailed)), now);
    }

    method MarkSsoReauth(id: AccountId, failed: bool, now: real)
      modifies `metas
      ensures metas == Apply(old(metas), Event(id, if failed then MarkSsoFailure else MarkSsoAttempt, now))
      ensures id != "" ==> AlwaysShownExpired(Get(metas, id))
    {
      RenewalMarksShow(Get(metas, id), now);
      if failed {
        PatchMeta(id, Patch(poolStatus := Put(Some(Expired)), lastRenewStatus := Put(SsoFailed)), now);
      } else {
        PatchMeta(id, Patch(lastRenewStatus := Put(SsoAttempt)), now);
      }
    }

    // ---------------------------------------------------------- administration

    method SetAccountEnabled(id: AccountId, enabled: bool, now: real)
      modifies `metas
      ensures metas == Apply(old(metas), Event(id, SetEnabled(enabled), now))
      ensures id != "" ==> Get(metas, id).enabled == enabled
      ensures id != "" && enabled ==> !Get(metas, id).disabledForQuota && Get(metas, id).blockedModels == map[]
    {
      var patch := Patch(enabled := Put(enabled));
      if enabled {
        patch := patch.(disabledForQuota := Put(false), disabledReason := Put(""), disabledSource := Put(""),
                        quotaSource := Put(""), blockedModels := Put(map[]), cooldownUntil := Put(None),
                        consecutiveFails := Put(0), poolStatus := Put(Some(Normal)));
      } else {
        patch := patch.(poolStatus := Put(Some(Disabled)));
      }
      PatchMeta(id, patch, now);
    }

    method SetQuota(id: AccountId, exhausted: bool, reason: string, source: string, now: real)
      modifies `metas
      ensures var op := if exhausted then DisableForQuota(reason, source) else ReenableForQuota;
              metas == Apply(old(metas), Event(id, op, now))
      ensures id != "" ==> Get(metas, id).enabled == !exhausted && Get(metas, id).disabledForQuota == exhausted
    {
      if exhausted {
        PatchMeta(id, Patch(enabled := Put(false), disabledForQuota := Put(true), disabledReason := Put(reason),
                            disabledSource := Put(source), quotaSource := Put(source),
                            poolStatus := Put(Some(QuotaDisabled))), now);
      } else {
        PatchMeta(id, QUOTA_CLEAR_PATCH, now);
      }
    }

    method SaveHealthyQuotaSnapshot(id: AccountId, now: real)
      modifies `metas
      ensures metas == Apply(old(metas), Event(id, SaveHealthyQuota, now))
      ensures id != "" && WasQuotaDisabled(Get(old(metas), id)) ==>
                Get(metas, id).enabled && !Get(metas, id).disabledForQuota
    {
      var patch := Patch();
      if WasQuotaDisabled(Get(metas, id)) {
        patch := QUOTA_CLEAR_PATCH;
      }
      PatchMeta(id, patch, now);
    }

    /** `writes`: the snapshot, or the error text beside it, is to be changed at all. */
    method SaveLastProbe(id: AccountId, writes: bool, now: real)
      modifies `metas
      ensures metas == Apply(old(metas), Event(id, Op.SaveLastProbe(writes), now))
    {
      if writes {
        PatchMeta(id, Patch(), now);
        if id != "" {
          StepIsUpdate(old(metas), Event(id, Op.SaveLastProbe(writes), now), metas[id]);
        }
      }
    }

    method ReenableIfKicked(id: AccountId, now: real) returns (reenabled: bool)
      requires id in metas
      modifies `metas
      ensures metas == Apply(old(metas), Event(id, ReenableProbeKicks, now))
      ensures reenabled == DisabledByProbe(old(metas)[id])
    {
      reenabled := DisabledByProbe(metas[id]);
      if reenabled {
        PatchMeta(id, Patch(enabled := Put(true), disabledReason := Put(""), disabledSource := Put("")), now);
        ApplyStored(old(metas), Event(id, ReenableProbeKicks, now));
      }
    }

    method ReenableProbeKickAccounts(now: real) returns (reenabled: nat, ghost events: seq<Event>)
      modifies `metas
      ensures Sweeping(old(metas), metas, {}, ReenableProbeKicks, events, now)
      ensures reenabled == |KickedAccounts(old(metas))|
    {
      ghost var was := metas;
      reenabled, events := 0, [];
      var todo := metas.Keys;
      KickedOutsideNone(was);
      while todo != {}
        invariant Sweeping(was, metas, todo, ReenableProbeKicks, events, now)
        invariant reenabled == KickedOutside(was, todo)
      {
        var id :| id in todo;
        ghost var e := Event(id, ReenableProbeKicks, now);
        ghost var next, longer := Apply(metas, e), events + [e];
        SweepStep(was, metas, todo, id, ReenableProbeKicks, events, now);
        KickedOutsideGrows(was, todo, id);
        var done := ReenableIfKicked(id, now);
        assert metas == next;
        reenabled := reenabled + if done then 1 else 0;
        events, todo := longer, todo - {id};
      }
    }

    // ---------------------------------------------------------- single acquisition

    method PickRoundRobin(eligible: seq<Creds>) returns (c: Creds)
      requires eligible != []
      modifies `rrIndex
      ensures c == eligible[PickIndex(old(rrIndex), |eligible|)]
      ensures rrIndex == NextCursor(old(rrIndex), |eligible|)
    {
      var idx := rrIndex % |eligible|;
      rrIndex := (idx + 1) % |eligible|;
      c := eligible[idx];
    }

    /** The first account with the least key. */
    static method PickLeastUsed(eligible: seq<Creds>, ctx: Context, spread: Spread) returns (best: nat)
      requires eligible != []
      ensures best < |eligible|
      ensures forall i | 0 <= i < |eligible| :: !LessUsed(eligible[i], eligible[best], ctx, spread)
      ensures forall i | 0 <= i < best :: LessUsed(eligible[best], eligible[i], ctx, spread)
    {
      best := 0;
      for i := 1 to |eligible|
        invariant best < i
        invariant forall j | 0 <= j < i :: !LessUsed(eligible[j], eligible[best], ctx, spread)
        invariant forall j | 0 <= j < best :: LessUsed(eligible[best], eligible[j], ctx, spread)
      {
        if LessUsed(eligible[i], eligible[best], ctx, spread) {
          best := i;
        }
      }
    }

    static method CollectAcquirable(tier: Tier, cs: seq<Creds>, ctx: Context) returns (found: seq<Creds>)
      ensures found == InTier(tier, cs, ctx)
    {
      found := [];
      for i := 0 to |cs|
        invariant found == InTier(tier, cs[..i], ctx)
      {
        FilterPrefix(c => Acquirable(tier, c, ctx), cs, i);
        if Acquirable(tier, cs[i], ctx) {
          found := found + [cs[i]];
        }
      }
      assert cs[..|cs|] == cs;
    }

    static method AcquireCandidates(candidates: seq<Creds>, ctx: Context) returns (eligible: seq<Creds>)
      ensures eligible == AcquirePool(candidates, ctx)
    {
      eligible := InTier(Full, candidates, ctx);
      if eligible == [] {
        eligible := CollectAcquirable(IgnoreSoftBlocks, candidates, ctx);
      }
      if eligible == [] {
        eligible := InTier(IgnoreAllBlocks, candidates, ctx);
      }
      if eligible == [] {
        eligible := InTier(IgnoreDisabled, candidates, ctx);
      }
    }

    /** `choice` stands for the weighted random draw. */
    method PickByMode(eligible: seq<Creds>, ctx: Context, mode: Mode, choice: nat) returns (c: Creds)
      requires eligible != []
      modifies `rrIndex, `marks
      ensures c in eligible
      ensures mode == RoundRobin ==> c == eligible[PickIndex(old(rrIndex), |eligible|)]
      ensures mode == LeastUsed ==>
                forall d | d in eligible :: !LessUsed(d, c, ctx, Spread(marks, softUsed))
      ensures rrIndex == if mode == RoundRobin then NextCursor(old(rrIndex), |eligible|) else old(rrIndex)
      ensures marks == if mode == RoundRobin then old(marks) else InFlight.Purged(old(marks), ctx.now)
    {
      match mode {
        case RoundRobin =>
          c := PickRoundRobin(eligible);
        case Random =>
          PurgeMarks(ctx.now);
          c := eligible[choice % |eligible|];
        case LeastUsed =>
          PurgeMarks(ctx.now);
          var best := PickLeastUsed(eligible, ctx, Spread(marks, softUsed));
          c := eligible[best];
      }
    }

    /**
     `prune` stands for the occasional clean-up of lapsed blocks; selection reads the
     records as they were before it.
     */
    method Acquire(
        live: seq<Creds>, exclude: set<AccountId>, model: ModelId, mode: Mode, choice: nat, prune: bool, now: real)
      returns (r: Result<Creds, AuthError>, ghost events: seq<Event>)
      modifies `metas, `rrIndex, `marks, `softUsed
      ensures var eligible := AcquirePool(NotExcluded(live, exclude), Context(old(metas), model, now));
              && (r.Success? <==> eligible != [])
              && (r.Success? ==> r.value in eligible)
              && (r.Success? && mode == RoundRobin ==> r.value == eligible[PickIndex(old(rrIndex), |eligible|)])
              && rrIndex == if r.Success? && mode == RoundRobin then NextCursor(old(rrIndex), |eligible|)
                            else old(rrIndex)
      ensures r == Failure(NoLiveAccounts) <==> live == []
      ensures r.Failure? <==>
                forall c :: c in live ==> c.authKey in exclude || Unacquirable(c, Context(old(metas), model, now))
      ensures metas == Run(old(metas), events) && AllAre(events, Op.PruneBlocks, now)
      ensures r.Success? && mode == LeastUsed ==>
                var ctx := Context(old(metas), model, now);
                var spread := Spread(InFlight.Purged(old(marks), now), old(softUsed));
                forall d | d in AcquirePool(NotExcluded(live, exclude), ctx) ::
                  !LessUsed(d, r.value, ctx, spread)
      ensures r.Success? && r.value.authKey != "" ==>
                var id := r.value.authKey;
                EffectiveInflight(marks, id, now) == EffectiveInflight(old(marks), id, now) + 1
      ensures r.Success? ==> MarkedPick(old(marks), old(softUsed), marks, softUsed, r.value.authKey, mode, now)
      ensures r.Failure? ==> marks == old(marks) && softUsed == old(softUsed)
    {
      events := [];
      var ctx := Context(metas, model, now);
      var candidates := NotExcluded(live, exclude);
      var eligible := AcquireCandidates(candidates, ctx);
      NothingToPickIff(live, exclude, ctx);
      if live == [] {
        r := Failure(NoLiveAccounts);
        return;
      }
      if prune {
        var pruned;
        pruned, events := PruneExpiredBlocks(now);
      }
      if eligible == [] {
        r := Failure(NoEligibleAccounts);
        return;
      }
      var picked := PickAndNote(eligible, ctx, mode, choice);
      r := Success(picked);
    }

    method PickAndNote(eligible: seq<Creds>, ctx: Context, mode: Mode, choice: nat) returns (c: Creds)
      requires eligible != []
      modifies `rrIndex, `marks, `softUsed
      ensures c in eligible
      ensures mode == RoundRobin ==> c == eligible[PickIndex(old(rrIndex), |eligible|)]
      ensures mode == LeastUsed ==>
                var spread := Spread(InFlight.Purged(old(marks), ctx.now), old(softUsed));
                forall d | d in eligible :: !LessUsed(d, c, ctx, spread)
      ensures rrIndex == if mode == RoundRobin then NextCursor(old(rrIndex), |eligible|) else old(rrIndex)
      ensures c.authKey != "" ==>
                EffectiveInflight(marks, c.authKey, ctx.now) == EffectiveInflight(old(marks), c.authKey, ctx.now) + 1
      ensures MarkedPick(old(marks), old(softUsed), marks, softUsed, c.authKey, mode, ctx.now)
    {
      c := PickByMode(eligible, ctx, mode, choice);
      NoteAccountPick(c.authKey, ctx.now);
    }

    // ---------------------------------------------------------- failover chain

    static method Partition(pref: string, cs: seq<Creds>) returns (preferred: seq<Creds>, others: seq<Creds>)
      ensures preferred == Split(pref, true, cs) && others == Split(pref, false, cs)
    {
      preferred, others := [], [];
      for i := 0 to |cs|
        invariant preferred == Split(pref, true, cs[..i]) && others == Split(pref, false, cs[..i])
      {
        FilterPrefix(c => Prefers(pref, c) == true, cs, i);
        FilterPrefix(c => Prefers(pref, c) == false, cs, i);
        if Prefers(pref, cs[i]) {
          preferred := preferred + [cs[i]];
        } else {
          others := others + [cs[i]];
        }
      }
      assert cs[..|cs|] == cs;
    }

    /** Keep what passes the test, stopping once `limit` entries are found. */
    static method CollectUpTo(p: Creds -> bool, cs: seq<Creds>, limit: nat) returns (kept: seq<Creds>)
      requires limit > 0
      ensures kept == Take(Filter(p, cs), limit)
    {
      kept := [];
      for i := 0 to |cs|
        invariant kept == Filter(p, cs[..i]) && |kept| < limit
      {
        FilterPrefix(p, cs, i);
        if p(cs[i]) {
          kept := kept + [cs[i]];
          if |kept| >= limit {
            FilledEarly(p, cs, i + 1, kept, limit);
            return;
          }
        }
      }
      assert cs[..|cs|] == cs;
    }

    static lemma FilledEarly(p: Creds -> bool, cs: seq<Creds>, i: nat, kept: seq<Creds>, limit: nat)
      requires i <= |cs| && kept == Filter(p, cs[..i]) && |kept| == limit
      ensures kept == Take(Filter(p, cs), limit)
    {
      FilterConcat(p, cs[..i], cs[i..]);
      assert cs == cs[..i] + cs[i..];
    }

    static method CollectAdmitted(tier: Tier, cs: seq<Creds>, ctx: Context) returns (admitted: seq<Creds>)
      ensures admitted == Admitted(tier, cs, ctx)
    {
      admitted := [];
      for i := 0 to |cs|
        invariant admitted == Admitted(tier, cs[..i], ctx)
      {
        FilterPrefix(c => Admits(tier, c, ctx), cs, i);
        if Admits(tier, cs[i], ctx) {
          admitted := admitted + [cs[i]];
        }
      }
      assert cs[..|cs|] == cs;
    }

    static method CollectCandidates(
        req: Request, order: seq<Creds>, window: seq<Creds>, ctx: Context)
      returns (found: seq<Creds>)
      ensures found == Candidates(req, order, window, ctx)
    {
      found := CollectAdmitted(Full, window, ctx);
      if found == [] {
        found := CollectAdmitted(IgnoreSoftBlocks, window, ctx);
      }
      if found == [] {
        found := CollectAdmitted(IgnoreAllBlocks, window, ctx);
      }
      if found == [] {
        found := CollectAdmitted(IgnoreDisabled, window, ctx);
      }
      if found == [] {
        found := CollectUpTo(c => Admits(Full, c, ctx), Extra(req, order, window), ExtraLimit(req));
      }
    }

    static method DropRepeatedUsers(cs: seq<Creds>) returns (unique: seq<Creds>)
      ensures unique == Dedup(cs)
    {
      var seen: set<string> := {};
      unique := [];
      for i := 0 to |cs|
        invariant unique == Dedup(cs[..i]) && seen == Users(unique)
      {
        assert cs[..i + 1][..i] == cs[..i];
        UsersSnoc(unique, cs[i]);
        if UserOf(cs[i]) !in seen {
          seen := seen + {UserOf(cs[i])};
          unique := unique + [cs[i]];
        }
      }
      assert cs[..|cs|] == cs;
    }

    static method RotatedWindow(req: Request, order: seq<Creds>, cursor: nat, shuffled: seq<Creds>)
      returns (window: seq<Creds>, next: nat)
      ensures window == Window(req, order, cursor, shuffled) && next == AfterWindow(req, order, cursor)
    {
      next := cursor;
      var n := WindowSize(req, order);
      if req.mode == Random && |order| > n {
        window := Take(shuffled, n);
      } else if req.mode != LeastUsed && |order| > n {
        var start := cursor % |order|;
        next := (start + 1) % |order|;
        window := order[start..] + order[..start];
        window := window[..n];
        if req.prefer != "" {
          var sticky, rest := Partition(req.prefer, window);
          window := sticky + rest;
        }
      } else {
        window := Take(order, NMax(n, 64));
      }
    }

    static method PinPreferred(pref: string, ranked: seq<Creds>, ctx: Context) returns (pinned: seq<Creds>)
      ensures pinned == Pinned(pref, ranked, ctx)
    {
      pinned := ranked;
      if pref != "" && ranked != [] {
        var sticky, rest := Partition(pref, ranked);
        if sticky != [] {
          pinned := if FitToLead(sticky[0], ctx) then sticky + rest else rest + sticky;
        }
      }
    }

    static method StickyBackups(sticky: Creds, cached: seq<Creds>, warm: map<AccountId, Meta>, limit: nat, ctx: Context)
      returns (chain: seq<Creds>)
      ensures chain == StickyChain(sticky, cached, warm, limit, ctx)
    {
      chain := [sticky];
      if limit > 1 {
        var backups := CollectUpTo(c => IsBackup(sticky, c, warm, ctx), cached, limit - 1);
        chain := chain + backups;
      }
    }

    static method FreshOrder(req: Request, live: seq<Creds>, now: real) returns (order: seq<Creds>)
      ensures order == Order(req, live, now)
    {
      order := Unexpired(live, now);
      if req.prefer != "" {
        var head, rest := Partition(req.prefer, order);
        order := head + rest;
      }
    }

    static method UniqueCandidates(
        req: Request, live: seq<Creds>, cursor: nat, shuffle: seq<Creds> -> seq<Creds>, ctx: Context)
      returns (unique: seq<Creds>, next: nat)
      ensures unique == UniqueOf(req, Order(req, live, ctx.now), cursor, shuffle, ctx)
      ensures next == AfterWindow(req, Order(req, live, ctx.now), cursor)
    {
      var order := FreshOrder(req, live, ctx.now);
      var window;
      window, next := RotatedWindow(req, order, cursor, shuffle(order));
      var found := CollectCandidates(req, order, window, ctx);
      unique := DropRepeatedUsers(found);
    }

    static method RankAndCut(
        req: Request, unique: seq<Creds>, shuffle: seq<Creds> -> seq<Creds>, ctx: Context, spread: Spread)
      returns (chain: seq<Creds>)
      ensures chain == Cut(req, LineupOf(req, unique, shuffle, ctx, spread), ctx.now)
    {
      var ranked := Ranked(req.mode, unique, shuffle, ctx, spread);
      var pinned := PinPreferred(req.prefer, ranked, ctx);
      chain := Unexpired(Take(pinned, AttemptLimit(req, |pinned|)), ctx.now);
    }

    method FullChain(
        ghost s: Selection, req: Request, live: seq<Creds>, shuffle: seq<Creds> -> seq<Creds>, ctx: Context)
      returns (chain: seq<Creds>)
      requires s == Selection(req, live, rrIndex, shuffle, Spread(InFlight.Purged(marks, ctx.now), softUsed), ctx)
      modifies `rrIndex, `marks
      ensures chain == if s.Unique() == [] then [] else s.Chain()
      ensures rrIndex == s.NextCursor()
      ensures marks == if s.Unique() == [] then old(marks) else InFlight.Purged(old(marks), ctx.now)
    {
      var unique;
      unique, rrIndex := UniqueCandidates(req, live, rrIndex, shuffle, ctx);
      assert unique == s.Unique();
      if unique == [] {
        return [];
      }
      PurgeMarks(ctx.now);
      assert Spread(marks, softUsed) == s.spread;
      ghost var lineup := LineupOf(req, unique, shuffle, ctx, s.spread);
      chain := RankAndCut(req, unique, shuffle, ctx, Spread(marks, softUsed));
      assert lineup == s.Lineup();
    }

    method FullPath(req: Request, live: seq<Creds>, shuffle: seq<Creds> -> seq<Creds>, ctx: Context)
      returns (chain: seq<Creds>, ghost s: Selection)
      requires Permutes(shuffle)
      modifies `rrIndex, `marks, `softUsed
      ensures s == Selection(
                     req, live, old(rrIndex), shuffle, Spread(InFlight.Purged(old(marks), ctx.now), old(softUsed)), ctx)
      ensures chain == s.Chain() && rrIndex == s.NextCursor()
      ensures MarkedHead(old(marks), old(softUsed), marks, softUsed, chain, ctx.now)
    {
      s := Selection(req, live, rrIndex, shuffle, Spread(InFlight.Purged(marks, ctx.now), softUsed), ctx);
      ghost var empty := s.Unique() == [];
      ChainLength(s);
      chain := FullChain(s, req, live, shuffle, ctx);
      assert empty <==> chain == [];
      if chain != [] {
        NoteAccountPick(chain[0].authKey, ctx.now);
      }
    }

    /**
     `sticky` is the preferred account's credential if it has one; `cached` and `warm` are
     the process-local caches; `shuffle` stands for the random permutations drawn. On the
     full path `s` holds all the selection read.
     */
    method TryAcquireSequence(
        req: Request, sticky: Option<Creds>, cached: seq<Creds>, warm: map<AccountId, Meta>, live: seq<Creds>,
        model: ModelId, shuffle: seq<Creds> -> seq<Creds>, now: real)
      returns (chain: seq<Creds>, ghost s: Selection)
      requires Permutes(shuffle)
      modifies `rrIndex, `marks, `softUsed
      ensures TakesFastPath(req, sticky, Context(metas, model, now)) ==>
                && chain == StickyChain(sticky.value, cached, warm, LimitTarget(req), Context(metas, model, now))
                && rrIndex == old(rrIndex) && marks == old(marks) && softUsed == old(softUsed)
      ensures !TakesFastPath(req, sticky, Context(metas, model, now)) ==>
                && chain == s.Chain() && rrIndex == s.NextCursor()
                && MarkedHead(old(marks), old(softUsed), marks, softUsed, chain, now)
      ensures s == Selection(req, live, old(rrIndex), shuffle,
                             Spread(InFlight.Purged(old(marks), now), old(softUsed)), Context(metas, model, now))
    {
      var ctx := Context(metas, model, now);
      if req.prefer != "" && sticky.Some? && StickyReady(sticky.value, ctx) {
        chain := StickyBackups(sticky.value, cached, warm, LimitTarget(req), ctx);
        s := Selection(req, live, rrIndex, shuffle, Spread(InFlight.Purged(marks, now), softUsed), ctx);
        return;
      }
      chain, s := FullPath(req, live, shuffle, ctx);
    }
  }
}
