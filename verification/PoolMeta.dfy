/**
 The per-account pool record, the readers that decide whether an account may be
 scheduled, and the one primitive that patches a record.

 An absent key of the stored dictionary is modelled by its default: an empty
 string, an empty stack or map, `None` for a missing number.
 */
module PoolMeta {
  import opened Wrappers

  type AccountId = string
  type ModelId = string

  datatype PoolStatus = Normal | Cooldown | Disabled | QuotaDisabled | Expired | ModelBlocked

  datatype RenewStatus = NoRenew | RenewOk | RenewFailed | RenewExpired | SsoFailed | NoSsoRemoved | SsoAttempt

  datatype EntryKind = FreeUsageExhausted | RequestFail | EmptyUpstream | ProbeFail

  datatype StatusEntry = StatusEntry(kind: EntryKind, at: real)

  /** A model block; `until == None` is a durable block. */
  datatype Block = Block(source: string, blockedAt: real, until: Option<real>)

  datatype Meta = Meta(
    enabled: bool,
    weight: nat,
    requestCount: nat,
    successCount: nat,
    failCount: nat,
    consecutiveFails: nat,
    lastUsedAt: Option<real>,
    cooldownUntil: Option<real>,
    cooldownCount: nat,
    statusStack: seq<StatusEntry>,
    poolStatus: Option<PoolStatus>,
    disabledForQuota: bool,
    disabledReason: string,
    disabledSource: string,
    quotaSource: string,
    blockedModels: map<ModelId, Block>,
    probeFailStreak: nat,
    lastProbeFailAt: Option<real>,
    tokenExpiredAt: Option<real>,
    renewFailCount: nat,
    lastRenewStatus: RenewStatus
  )

  const EmptyMeta := Meta(true, 1, 0, 0, 0, 0, None, None, 0, [], None, false, "", "", "",
                          map[], 0, None, None, 0, NoRenew)

  // Default cooldown policy of the pool, in seconds.
  const PROBE_HOLD_COOLDOWN_SEC: real := 31536000.0
  const FREE_USAGE_COOLDOWN_BASE_SEC: real := 900.0
  const FREE_USAGE_COOLDOWN_MAX_SEC: real := 3600.0
  const FREE_USAGE_STACK_MAX: nat := 4
  const FREE_USAGE_RESTACK_MIN_SEC: real := 30.0
  const SOFT_MODEL_BLOCK_TTL: real := 180.0
  const STATUS_STACK_MAX: nat := 50

  function RMax(a: real, b: real): real { if a >= b then a else b }
  function RMin(a: real, b: real): real { if a <= b then a else b }
  function NMax(a: nat, b: nat): nat { if a >= b then a else b }
  function NMin(a: nat, b: nat): nat { if a <= b then a else b }

  function Get(metas: map<AccountId, Meta>, id: AccountId): Meta {
    if id in metas then metas[id] else EmptyMeta
  }

  // ---------------------------------------------------------------- readers

  predicate IsInCooldown(m: Meta, now: real) {
    || m.cooldownCount > 0
    || m.statusStack != []
    || m.poolStatus == Some(Cooldown)
    || (m.cooldownUntil.Some? && now < m.cooldownUntil.value)
  }

  predicate IsTemporarySource(source: string) {
    source in {"temp_usage", "soft", "temporary"}
  }

  predicate IsBlockActive(b: Block, durableOnly: bool, now: real) {
    if durableOnly then
      b.until.None? && !IsTemporarySource(b.source)
    else
      b.until.None? || now < b.until.value
  }

  predicate IsModelBlocked(m: Meta, model: ModelId, durableOnly: bool, now: real) {
    && model != ""
    && model in m.blockedModels
    && IsBlockActive(m.blockedModels[model], durableOnly, now)
  }

  predicate IsLapsed(b: Block, now: real) {
    b.until.Some? && now >= b.until.value
  }

  function LiveBlocks(blocked: map<ModelId, Block>, now: real): map<ModelId, Block> {
    map model | model in blocked && !IsLapsed(blocked[model], now) :: blocked[model]
  }

  predicate IsRenewBlocking(r: RenewStatus) {
    r in {RenewFailed, RenewExpired, SsoFailed, NoSsoRemoved, SsoAttempt}
  }

  /** The label shown for, and used to schedule, an account at time `now`. */
  function ViewLabel(m: Meta, blocked: map<ModelId, Block>, now: real): PoolStatus {
    if m.poolStatus == Some(Expired) || IsRenewBlocking(m.lastRenewStatus) then Expired
    else if m.poolStatus.None? then
      if m.disabledForQuota then QuotaDisabled
      else if !m.enabled then Disabled
      else if IsInCooldown(m, now) then Cooldown
      else if blocked != map[] then ModelBlocked
      else Normal
    else if IsInCooldown(m, now) && m.poolStatus == Some(Normal) then Cooldown
    else m.poolStatus.value
  }

  /** The record as request scheduling sees it: lapsed blocks dropped, label recomputed. */
  function View(m: Meta, now: real): Meta {
    var blocked := LiveBlocks(m.blockedModels, now);
    m.(blockedModels := blocked, poolStatus := Some(ViewLabel(m, blocked, now)))
  }

  // ---------------------------------------------------------------- writing

  /** One key of a patch: left alone, or overwritten (a removed key is overwritten by its default). */
  datatype Upd<T> = Keep | Put(value: T) {
    function Or(current: T): T {
      if Put? then value else current
    }
  }

  datatype Patch = Patch(
    nameonly enabled: Upd<bool> := Keep,
    nameonly consecutiveFails: Upd<nat> := Keep,
    nameonly cooldownUntil: Upd<Option<real>> := Keep,
    nameonly cooldownCount: Upd<nat> := Keep,
    nameonly statusStack: Upd<seq<StatusEntry>> := Keep,
    nameonly poolStatus: Upd<Option<PoolStatus>> := Keep,
    nameonly disabledForQuota: Upd<bool> := Keep,
    nameonly disabledReason: Upd<string> := Keep,
    nameonly disabledSource: Upd<string> := Keep,
    nameonly quotaSource: Upd<string> := Keep,
    nameonly blockedModels: Upd<map<ModelId, Block>> := Keep,
    nameonly probeFailStreak: Upd<nat> := Keep,
    nameonly lastProbeFailAt: Upd<Option<real>> := Keep,
    nameonly tokenExpiredAt: Upd<Option<real>> := Keep,
    nameonly renewFailCount: Upd<nat> := Keep,
    nameonly lastRenewStatus: Upd<RenewStatus> := Keep
  )

  function ApplyPatch(m: Meta, p: Patch): Meta {
    m.(enabled := p.enabled.Or(m.enabled),
       consecutiveFails := p.consecutiveFails.Or(m.consecutiveFails),
       cooldownUntil := p.cooldownUntil.Or(m.cooldownUntil),
       cooldownCount := p.cooldownCount.Or(m.cooldownCount),
       statusStack := p.statusStack.Or(m.statusStack),
       poolStatus := p.poolStatus.Or(m.poolStatus),
       disabledForQuota := p.disabledForQuota.Or(m.disabledForQuota),
       disabledReason := p.disabledReason.Or(m.disabledReason),
       disabledSource := p.disabledSource.Or(m.disabledSource),
       quotaSource := p.quotaSource.Or(m.quotaSource),
       blockedModels := p.blockedModels.Or(m.blockedModels),
       probeFailStreak := p.probeFailStreak.Or(m.probeFailStreak),
       lastProbeFailAt := p.lastProbeFailAt.Or(m.lastProbeFailAt),
       tokenExpiredAt := p.tokenExpiredAt.Or(m.tokenExpiredAt),
       renewFailCount := p.renewFailCount.Or(m.renewFailCount),
       lastRenewStatus := p.lastRenewStatus.Or(m.lastRenewStatus))
  }

  /** The label persisted with every patch; only `Expired` is carried over from the old label. */
  function DeriveStatus(m: Meta, now: real): PoolStatus {
    if m.disabledForQuota then QuotaDisabled
    else if !m.enabled then Disabled
    else if m.cooldownCount > 0 then Cooldown
    else if m.cooldownUntil.Some? && m.cooldownUntil.value > now then Cooldown
    else if m.poolStatus == Some(Expired) then Expired
    else if m.blockedModels != map[] then ModelBlocked
    else Normal
  }

  function Relabelled(m: Meta, now: real): Meta {
    m.(poolStatus := Some(DeriveStatus(m, now)))
  }

  function Patched(m: Meta, p: Patch, now: real): Meta {
    Relabelled(ApplyPatch(m, p), now)
  }
}
