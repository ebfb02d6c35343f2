/**
 What each pool operation does to one account record, as a function of the record,
 the operation's arguments and the clock. The methods of `AccountPool` are proved
 to have exactly these effects.
 */
module PoolOps {
  import opened Wrappers
  import opened PoolMeta

  /** A parsed free-usage error; `model` is "" when the error text names none. */
  datatype FreeUsage = FreeUsage(model: ModelId)

  // ------------------------------------------------------------ small pieces

  function Pushed(stack: seq<StatusEntry>, e: StatusEntry): seq<StatusEntry> {
    LastN(stack + [e], STATUS_STACK_MAX)
  }

  function LastN(stack: seq<StatusEntry>, n: nat): seq<StatusEntry> {
    if |stack| > n then stack[|stack| - n..] else stack
  }

  function Growth(n: nat): real {
    if n == 0 then 1.0 else 1.5 * Growth(n - 1)
  }

  /** The remaining-time hint displayed for the given stack count. */
  function DisplayTtl(stackCount: nat): real {
    var n := NMax(1, stackCount);
    RMax(60.0, RMin(FREE_USAGE_COOLDOWN_MAX_SEC, FREE_USAGE_COOLDOWN_BASE_SEC * Growth(n - 1)))
  }

  function SoftBlockTtl(count: nat): real {
    var soft := RMin(DisplayTtl(count), SOFT_MODEL_BLOCK_TTL * NMax(1, count) as real);
    RMax(60.0, RMin(FREE_USAGE_COOLDOWN_MAX_SEC, soft))
  }

  /** Counter and label update after a live request. */
  function Touched(
      m: Meta, success: bool, cooldownUntil: Option<real>, fails: Option<nat>, preserve: bool, now: real): Meta
  {
    var cooling := m.cooldownUntil.Some? && m.cooldownUntil.value > now;
    var n := m.(requestCount := m.requestCount + 1, lastUsedAt := Some(now), weight := NMax(1, m.weight));
    var n := if success then
               n.(successCount := m.successCount + 1, consecutiveFails := 0)
             else
               n.(failCount := m.failCount + 1,
                  consecutiveFails := fails.GetOr(m.consecutiveFails + 1),
                  cooldownUntil := if cooldownUntil.Some? then cooldownUntil else m.cooldownUntil);
    if preserve && cooling then n.(poolStatus := Some(Cooldown)) else Relabelled(n, now)
  }

  // ------------------------------------------------------------ model blocks

  function NewBlock(blocked: map<ModelId, Block>, model: ModelId, source: string, ttl: Option<real>, now: real): Block {
    if ttl.Some? && ttl.value > 0.0 then
      var remaining := if model in blocked && blocked[model].until.Some?
                       then RMax(0.0, blocked[model].until.value - now) else 0.0;
      Block(source, now, Some(now + (remaining + ttl.value)))
    else
      Block(source, now, None)
  }

  function BlockedFor(m: Meta, model: ModelId, source: string, ttl: Option<real>, now: real): Meta {
    if model == "" then m
    else
      var entry := NewBlock(m.blockedModels, model, source, ttl, now);
      Patched(m, Patch(blockedModels := Put(m.blockedModels[model := entry])), now)
  }

  /** `model == ""` clears every block of the account. */
  function Unblocked(m: Meta, model: ModelId, now: real): Meta {
    if model == "" then Patched(m, Patch(blockedModels := Put(map[])), now)
    else if model in m.blockedModels then Patched(m, Patch(blockedModels := Put(m.blockedModels - {model})), now)
    else m
  }

  function LapsedModels(blocked: map<ModelId, Block>, now: real): set<ModelId> {
    set model | model in blocked && IsLapsed(blocked[model], now)
  }

  function Pruned(m: Meta, now: real): Meta {
    if LapsedModels(m.blockedModels, now) == {} then m
    else Patched(m, Patch(blockedModels := Put(LiveBlocks(m.blockedModels, now))), now)
  }

  // ------------------------------------------------------------ free usage

  predicate StillActive(v: Meta, now: real) {
    (v.cooldownUntil.Some? && v.cooldownUntil.value > now) || v.poolStatus == Some(Cooldown)
  }

  function PriorCount(v: Meta): nat {
    if v.statusStack != [] then NMax(v.cooldownCount, |v.statusStack|) else v.cooldownCount
  }

  function LastHitAt(v: Meta): real {
    var at := if v.statusStack != [] then v.statusStack[|v.statusStack| - 1].at else 0.0;
    if at <= 0.0 then v.lastProbeFailAt.GetOr(0.0) else at
  }

  /** Whether this hit adds a stack entry, or only refreshes the marker. */
  predicate Restacks(v: Meta, now: real) {
    && !(StillActive(v, now) && now - LastHitAt(v) < FREE_USAGE_RESTACK_MIN_SEC)
    && !(StillActive(v, now) && PriorCount(v) >= FREE_USAGE_STACK_MAX)
  }

  function FreeUsageStack(v: Meta, now: real): seq<StatusEntry> {
    var entry := StatusEntry(FreeUsageExhausted, now);
    if Restacks(v, now) then LastN(Pushed(v.statusStack, entry), FREE_USAGE_STACK_MAX)
    else if v.statusStack != [] then v.statusStack
    else [entry]
  }

  function FreeUsageCount(v: Meta, now: real): (n: nat)
    ensures 1 <= n <= FREE_USAGE_STACK_MAX
  {
    if Restacks(v, now) then NMin(FREE_USAGE_STACK_MAX, NMax(1, |FreeUsageStack(v, now)|))
    else NMax(1, NMin(FREE_USAGE_STACK_MAX, if PriorCount(v) == 0 then 1 else PriorCount(v)))
  }

  function FreeUsageUntil(v: Meta, now: real): real {
    var until := now + PROBE_HOLD_COOLDOWN_SEC;
    if StillActive(v, now) && v.cooldownUntil.Some? then RMax(v.cooldownUntil.value, until) else until
  }

  function FreeUsagePatch(v: Meta, now: real): Patch {
    Patch(poolStatus := Put(Some(Cooldown)),
          cooldownCount := Put(FreeUsageCount(v, now)),
          statusStack := Put(FreeUsageStack(v, now)),
          cooldownUntil := Put(Some(FreeUsageUntil(v, now))),
          enabled := Put(true),
          disabledReason := Put(""),
          disabledSource := Put(""),
          disabledForQuota := Put(false),
          lastProbeFailAt := Put(Some(now)))
  }

  function FreeUsageHit(m: Meta, free: FreeUsage, model: ModelId, now: real): Meta {
    var v := View(m, now);
    var mid := if free.model != "" then free.model else model;
    var b := BlockedFor(m, mid, "temp_usage", Some(SoftBlockTtl(FreeUsageCount(v, now))), now);
    Patched(b, FreeUsagePatch(v, now), now)
  }

  // ------------------------------------------------------------ live traffic

  /** What a success clears on an account that is not cooling: the probe streak, and a temporary block of the model. */
  function SuccessSettled(t: Meta, model: ModelId, now: real): Meta {
    var v := View(t, now);
    var p := if v.probeFailStreak != 0 then Patched(t, Patch(probeFailStreak := Put(0)), now) else t;
    if model != "" && model in v.blockedModels
       && (v.blockedModels[model].until.Some? || IsTemporarySource(v.blockedModels[model].source))
    then Unblocked(p, model, now)
    else p
  }

  function LiveSuccess(m: Meta, model: ModelId, now: real): Meta {
    var t := Touched(m, true, None, Some(0), true, now);
    if IsInCooldown(View(m, now), now) then t else SuccessSettled(t, model, now)
  }

  function CoolingPatch(stack: seq<StatusEntry>, now: real): Patch {
    Patch(statusStack := Put(stack),
          cooldownCount := Put(|stack|),
          poolStatus := Put(Some(Cooldown)),
          cooldownUntil := Put(Some(now + PROBE_HOLD_COOLDOWN_SEC)))
  }

  /** What the per-model error handler does before the failure itself is recorded. */
  datatype Handler = NoHandler | UsageHandler(usage: FreeUsage) | ModelGoneHandler(durableTtl: real)

  function Handled(m: Meta, handler: Handler, model: ModelId, now: real): Meta {
    match handler
    case UsageHandler(usage) => if model == "" then m else FreeUsageHit(m, usage, model, now)
    case ModelGoneHandler(ttl) =>
      if model == "" then m else SoftKicked(BlockedFor(m, model, "upstream_error", Some(ttl), now), now)
    case NoHandler => m
  }

  /** Recording a failure once the handler has run; `seen` is the stack read before it ran. */
  function FailureRecorded(
      h: Meta, seen: seq<StatusEntry>, streak: nat, free: Option<FreeUsage>, emptyUpstream: bool, model: ModelId,
      now: real): Meta
  {
    if free.Some? then
      var f := FreeUsageHit(h, free.value, model, now);
      Touched(f, false, f.cooldownUntil, Some(streak), true, now)
    else
      var stack := Pushed(seen, StatusEntry(if emptyUpstream then EmptyUpstream else RequestFail, now));
      var c := Patched(h, CoolingPatch(stack, now), now);
      Touched(c, false, Some(now + PROBE_HOLD_COOLDOWN_SEC), Some(streak), false, now)
  }

  /** A live failure of an account that was read as `v` before the handler ran. */
  function FailureOf(
      v: Meta, m: Meta, free: Option<FreeUsage>, emptyUpstream: bool, handler: Handler, model: ModelId, now: real): Meta
  {
    var h := Handled(m, handler, model, now);
    FailureRecorded(h, v.statusStack, v.consecutiveFails + 1, free, emptyUpstream, model, now)
  }

  function LiveFailure(
      m: Meta, free: Option<FreeUsage>, emptyUpstream: bool, handler: Handler, model: ModelId, now: real): Meta
  {
    FailureOf(View(m, now), m, free, emptyUpstream, handler, model, now)
  }

  // ------------------------------------------------------------ probes

  const RECOVERY_PATCH := Patch(
    probeFailStreak := Put(0),
    consecutiveFails := Put(0),
    cooldownCount := Put(0),
    statusStack := Put([]),
    cooldownUntil := Put(None),
    poolStatus := Put(Some(Normal)))

  predicate HasPrefix(s: string, prefixes: seq<string>) {
    exists i | 0 <= i < |prefixes| :: prefixes[i] <= s
  }

  /** A successful probe re-enables an account only if a failed probe disabled it. */
  predicate ProbeReenables(v: Meta) {
    var source := if v.quotaSource != "" then v.quotaSource else v.disabledSource;
    var disabler := if v.disabledSource != "" then v.disabledSource else v.quotaSource;
    && !v.enabled
    && !v.disabledForQuota
    && source in {"", "model_health", "probe", "probe_kick", "None"}
    && (disabler in {"model_health", "probe", "probe_kick"}
        || HasPrefix(v.disabledReason, ["模型探测失败", "模型不可用", "探测连续失败", "临时额度耗尽"]))
  }

  function ProbeRecoveryPatch(v: Meta, model: ModelId): Patch {
    var unblocks := && model != ""
                    && model in v.blockedModels
                    && (v.blockedModels[model].until.Some?
                        || v.blockedModels[model].source in {"temp_usage", "soft", "temporary", "probe", ""});
    var p := if unblocks then RECOVERY_PATCH.(blockedModels := Put(v.blockedModels - {model})) else RECOVERY_PATCH;
    if ProbeReenables(v) then p.(enabled := Put(true), disabledReason := Put(""), disabledSource := Put("")) else p
  }

  function ProbeSucceeded(m: Meta, model: ModelId, now: real): Meta {
    Patched(m, ProbeRecoveryPatch(View(m, now), model), now)
  }

  /** The streak and time of a failed probe; from the kick threshold on, also a cooldown, unless free usage
      cools the account anyway. */
  function ProbeFailurePatch(v: Meta, free: Option<FreeUsage>, autoKick: bool, kickAt: nat, now: real): Patch {
    var streak := v.probeFailStreak + 1;
    if free.None? && autoKick && streak >= kickAt then
      var stack := Pushed(v.statusStack, StatusEntry(ProbeFail, now));
      CoolingPatch(stack, now).(probeFailStreak := Put(streak), lastProbeFailAt := Put(Some(now)))
    else
      Patch(probeFailStreak := Put(streak), lastProbeFailAt := Put(Some(now)))
  }

  function ProbeFailed(m: Meta, free: Option<FreeUsage>, model: ModelId, autoKick: bool, kickAt: nat, now: real): Meta {
    var hit := if free.Some? then FreeUsageHit(m, free.value, model, now) else m;
    Patched(hit, ProbeFailurePatch(View(m, now), free, autoKick, kickAt, now), now)
  }

  // ------------------------------------------------------------ renewal

  function MarkedExpired(m: Meta, now: real): Meta {
    Patched(m, Patch(poolStatus := Put(Some(Expired)),
                     tokenExpiredAt := Put(Some(m.tokenExpiredAt.GetOr(now))),
                     lastRenewStatus := Put(if m.lastRenewStatus == NoRenew then RenewExpired
                                            else m.lastRenewStatus)), now)
  }

  function ExpiryCleared(m: Meta, now: real): Meta {
    var p := Patch(poolStatus := Put(Some(Normal)),
                   tokenExpiredAt := Put(None),
                   renewFailCount := Put(0),
                   lastRenewStatus := Put(RenewOk));
    var q := if m.disabledForQuota then p
             else if m.disabledSource in {"renew_fail_no_sso", "kick"} || m.lastRenewStatus == NoSsoRemoved
             then p.(enabled := Put(true), disabledReason := Put(""), disabledSource := Put(""))
             else p.(enabled := Put(true));
    Patched(m, q, now)
  }

  function RenewalFailed(m: Meta, now: real): Meta {
    Patched(m, Patch(poolStatus := Put(Some(Expired)),
                     tokenExpiredAt := Put(Some(m.tokenExpiredAt.GetOr(now))),
                     renewFailCount := Put(m.renewFailCount + 1),
                     lastRenewStatus := Put(RenewFailed)), now)
  }

  function SsoAttempted(m: Meta, now: real): Meta {
    Patched(m, Patch(lastRenewStatus := Put(SsoAttempt)), now)
  }

  function SsoReauthFailed(m: Meta, now: real): Meta {
    Patched(m, Patch(poolStatus := Put(Some(Expired)), lastRenewStatus := Put(SsoFailed)), now)
  }

  // ------------------------------------------------------------ administration

  function EnabledSet(m: Meta, enabled: bool, now: real): Meta {
    if enabled then
      Patched(m, Patch(enabled := Put(true),
                       disabledForQuota := Put(false),
                       disabledReason := Put(""),
                       disabledSource := Put(""),
                       quotaSource := Put(""),
                       blockedModels := Put(map[]),
                       cooldownUntil := Put(None),
                       consecutiveFails := Put(0),
                       poolStatus := Put(Some(Normal))), now)
    else
      Patched(m, Patch(enabled := Put(false), poolStatus := Put(Some(Disabled))), now)
  }

  function StackCooldownCount(v: Meta, now: real): nat {
    if v.cooldownCount == 0 && IsInCooldown(v, now) then 2 else v.cooldownCount + 1
  }

  function SoftKicked(m: Meta, now: real): Meta {
    var v := View(m, now);
    var until := now + PROBE_HOLD_COOLDOWN_SEC;
    var k := Patched(m, Patch(cooldownCount := Put(StackCooldownCount(v, now)),
                              poolStatus := Put(Some(Cooldown)),
                              cooldownUntil := Put(Some(until))), now);
    Touched(k, false, Some(until), Some(NMax(1, v.consecutiveFails)), false, now)
  }

  function HardKicked(m: Meta, reason: string, now: real): Meta {
    Patched(m, Patch(enabled := Put(false), disabledReason := Put(reason), poolStatus := Put(Some(Disabled))), now)
  }

  function CooldownCleared(m: Meta, now: real): Meta {
    Patched(m, RECOVERY_PATCH, now)
  }

  function QuotaDisabledSoft(m: Meta, reason: string, source: string, now: real): Meta {
    Patched(m, Patch(enabled := Put(false),
                     disabledForQuota := Put(true),
                     disabledReason := Put(reason),
                     disabledSource := Put(source),
                     quotaSource := Put(source),
                     poolStatus := Put(Some(QuotaDisabled))), now)
  }

  const QUOTA_CLEAR_PATCH := Patch(
    enabled := Put(true),
    disabledForQuota := Put(false),
    disabledReason := Put(""),
    disabledSource := Put(""),
    quotaSource := Put(""),
    poolStatus := Put(Some(Normal)))

  function QuotaReenabled(m: Meta, now: real): Meta {
    Patched(m, QUOTA_CLEAR_PATCH, now)
  }

  predicate Mentions(s: string, word: string) {
    word <= s || (s != "" && Mentions(s[1..], word))
  }

  predicate WasQuotaDisabled(m: Meta) {
    var source := if m.quotaSource != "" then m.quotaSource else m.disabledSource;
    || m.disabledForQuota
    || source in {"billing", "upstream_error", "model_health", "quota"}
    || (!m.enabled && Mentions(m.disabledReason, "额度"))
  }

  function HealthyQuotaSaved(m: Meta, now: real): Meta {
    Patched(m, if WasQuotaDisabled(m) then QUOTA_CLEAR_PATCH else Patch(), now)
  }

  predicate DisabledByProbe(m: Meta) {
    var disabler := if m.disabledSource != "" then m.disabledSource else m.quotaSource;
    && !m.enabled
    && !m.disabledForQuota
    && (disabler in {"probe_kick", "model_health", "probe"}
        || HasPrefix(m.disabledReason, ["探测连续失败", "模型探测失败", "模型不可用"]))
  }

  function ProbeKickReenabled(m: Meta, now: real): Meta {
    if DisabledByProbe(m)
    then Patched(m, Patch(enabled := Put(true), disabledReason := Put(""), disabledSource := Put("")), now)
    else m
  }

  /** Saving a probe's snapshot, if there is anything to save, derives the label anew. */
  function ProbeSaved(m: Meta, writes: bool, now: real): Meta {
    if writes then Patched(m, Patch(), now) else m
  }

  // ------------------------------------------------------------ one step

  datatype Op =
    | ReportSuccess(model: ModelId)
    | ReportFailure(free: Option<FreeUsage>, emptyUpstream: bool, handler: Handler, model: ModelId)
    | FreeUsageExhaustion(usage: FreeUsage, model: ModelId)
    | ProbeOk(model: ModelId)
    | ProbeError(free: Option<FreeUsage>, model: ModelId, autoKick: bool, kickAt: nat)
    | MarkExpired
    | ClearExpired
    | RecordRenewFailure
    | MarkSsoAttempt
    | MarkSsoFailure
    | BlockModel(model: ModelId, source: string, ttl: Option<real>)
    | UnblockModel(model: ModelId)
    | PruneBlocks
    | ClockPrune
    | SetEnabled(enabled: bool)
    | KickSoft
    | KickHard(reason: string)
    | ClearCooldown
    | DisableForQuota(reason: string, source: string)
    | ReenableForQuota
    | SaveHealthyQuota
    | ReenableProbeKicks
    | SaveLastProbe(writes: bool)

  function Step(op: Op, m: Meta, now: real): Meta {
    match op
    case ReportSuccess(model) => LiveSuccess(m, model, now)
    case ReportFailure(free, empty, handler, model) => LiveFailure(m, free, empty, handler, model, now)
    case FreeUsageExhaustion(usage, model) => FreeUsageHit(m, usage, model, now)
    case ProbeOk(model) => ProbeSucceeded(m, model, now)
    case ProbeError(free, model, autoKick, kickAt) => ProbeFailed(m, free, model, autoKick, kickAt, now)
    case MarkExpired => MarkedExpired(m, now)
    case ClearExpired => ExpiryCleared(m, now)
    case RecordRenewFailure => RenewalFailed(m, now)
    case MarkSsoAttempt => SsoAttempted(m, now)
    case MarkSsoFailure => SsoReauthFailed(m, now)
    case BlockModel(model, source, ttl) => BlockedFor(m, model, source, ttl, now)
    case UnblockModel(model) => Unblocked(m, model, now)
    case PruneBlocks => Pruned(m, now)
    case ClockPrune => m
    case SetEnabled(enabled) => EnabledSet(m, enabled, now)
    case KickSoft => SoftKicked(m, now)
    case KickHard(reason) => HardKicked(m, reason, now)
    case ClearCooldown => CooldownCleared(m, now)
    case DisableForQuota(reason, source) => QuotaDisabledSoft(m, reason, source, now)
    case ReenableForQuota => QuotaReenabled(m, now)
    case SaveHealthyQuota => HealthyQuotaSaved(m, now)
    case ReenableProbeKicks => ProbeKickReenabled(m, now)
    case SaveLastProbe(writes) => ProbeSaved(m, writes, now)
  }
}
