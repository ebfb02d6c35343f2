/** Choosing the account that serves the next request. */
module Rotation {
  import opened Wrappers
  import opened Sequences
  import opened PoolMeta
  import opened PoolOps
  import opened PoolRuns
  import opened Switches
  import opened Renewals

  datatype Creds = Creds(authKey: AccountId, userId: string, expiresAt: Option<real>, token: string)

  datatype Mode = RoundRobin | Random | LeastUsed

  datatype AuthError = NoLiveAccounts | NoEligibleAccounts

  /** What one selection reads besides the credentials. */
  datatype Context = Context(metas: map<AccountId, Meta>, model: ModelId, now: real)

  /** Access tokens count as expired one minute early. */
  predicate TokenExpired(c: Creds, now: real) {
    c.expiresAt.Some? && now >= c.expiresAt.value - 60.0
  }

  function ViewOf(c: Creds, ctx: Context): Meta {
    View(Get(ctx.metas, c.authKey), ctx.now)
  }

  predicate Cooling(c: Creds, ctx: Context) {
    IsInCooldown(ViewOf(c, ctx), ctx.now)
  }

  predicate LabelledExpired(c: Creds, ctx: Context) {
    ViewOf(c, ctx).poolStatus == Some(Expired)
  }

  predicate BlockedHere(c: Creds, durableOnly: bool, ctx: Context) {
    IsModelBlocked(ViewOf(c, ctx), ctx.model, durableOnly, ctx.now)
  }

  /** The successive relaxations tried when no account is fully eligible. */
  datatype Tier = Full | IgnoreSoftBlocks | IgnoreAllBlocks | IgnoreDisabled

  predicate Admits(tier: Tier, c: Creds, ctx: Context) {
    && !TokenExpired(c, ctx.now)
    && !Cooling(c, ctx)
    && match tier
       case Full => ViewOf(c, ctx).enabled && !BlockedHere(c, false, ctx)
       case IgnoreSoftBlocks => ViewOf(c, ctx).enabled && !BlockedHere(c, true, ctx)
       case IgnoreAllBlocks => ViewOf(c, ctx).enabled
       case IgnoreDisabled => !ViewOf(c, ctx).disabledForQuota
  }

  /** `Admits`, and not labelled expired: the test made when a single account is acquired. */
  predicate Acquirable(tier: Tier, c: Creds, ctx: Context) {
    Admits(tier, c, ctx) && !LabelledExpired(c, ctx)
  }

  function NotExcluded(cs: seq<Creds>, exclude: set<AccountId>): seq<Creds> {
    Filter((c: Creds) => c.authKey !in exclude, cs)
  }

  function InTier(tier: Tier, cs: seq<Creds>, ctx: Context): seq<Creds> {
    Filter(c => Acquirable(tier, c, ctx), cs)
  }

  /** The candidates of the first tier that admits any. */
  function AcquirePool(cs: seq<Creds>, ctx: Context): seq<Creds> {
    if InTier(Full, cs, ctx) != [] then InTier(Full, cs, ctx)
    else if InTier(IgnoreSoftBlocks, cs, ctx) != [] then InTier(IgnoreSoftBlocks, cs, ctx)
    else if InTier(IgnoreAllBlocks, cs, ctx) != [] then InTier(IgnoreAllBlocks, cs, ctx)
    else InTier(IgnoreDisabled, cs, ctx)
  }

  /** No tier can admit this account. */
  predicate Unacquirable(c: Creds, ctx: Context) {
    || TokenExpired(c, ctx.now)
    || Cooling(c, ctx)
    || LabelledExpired(c, ctx)
    || (!ViewOf(c, ctx).enabled && ViewOf(c, ctx).disabledForQuota)
  }

  lemma TiersWiden(c: Creds, ctx: Context)
    ensures Acquirable(Full, c, ctx) ==> Acquirable(IgnoreSoftBlocks, c, ctx)
    ensures Acquirable(IgnoreSoftBlocks, c, ctx) ==> Acquirable(IgnoreAllBlocks, c, ctx)
    ensures Unacquirable(c, ctx) <==> !Acquirable(IgnoreAllBlocks, c, ctx) && !Acquirable(IgnoreDisabled, c, ctx)
  {
  }

  /** Acquisition fails exactly when every candidate is unacquirable, and never settles for less than it could get. */
  lemma AcquirePoolIsBest(cs: seq<Creds>, ctx: Context)
    ensures AcquirePool(cs, ctx) == [] <==> forall c :: c in cs ==> Unacquirable(c, ctx)
    ensures forall c :: c in AcquirePool(cs, ctx) ==> c in cs && !Unacquirable(c, ctx)
    ensures (exists c :: c in cs && Acquirable(Full, c, ctx))
            ==> forall c :: c in AcquirePool(cs, ctx) ==> Acquirable(Full, c, ctx)
  {
    forall c | c in cs
      ensures Unacquirable(c, ctx) <==> c !in InTier(IgnoreAllBlocks, cs, ctx) && c !in InTier(IgnoreDisabled, cs, ctx)
      ensures c in InTier(Full, cs, ctx) ==> c in InTier(IgnoreAllBlocks, cs, ctx)
      ensures c in InTier(IgnoreSoftBlocks, cs, ctx) ==> c in InTier(IgnoreAllBlocks, cs, ctx)
    {
      TiersWiden(c, ctx);
    }
    if AcquirePool(cs, ctx) != [] {
      var c := AcquirePool(cs, ctx)[0];
      assert c in AcquirePool(cs, ctx);
    }
  }

  /** With the excluded accounts left out, nothing can be picked iff nothing else can be acquired. */
  lemma NothingToPickIff(live: seq<Creds>, exclude: set<AccountId>, ctx: Context)
    ensures AcquirePool(NotExcluded(live, exclude), ctx) == []
            <==> forall c :: c in live ==> c.authKey in exclude || Unacquirable(c, ctx)
  {
    AcquirePoolIsBest(NotExcluded(live, exclude), ctx);
  }

  // ------------------------------------------------------------ policy, end to end

  /** After any run, a live account is fully eligible exactly when it is unblocked and no failure, no switching
      off, no renewal hold and no expired label of it still stands. */
  lemma EligibleAfterRunIff(metas: map<AccountId, Meta>, events: seq<Event>, c: Creds, model: ModelId, now: real)
    requires PoolInv(metas) && c.authKey != ""
    ensures var ctx := Context(Run(metas, events), model, now);
            Acquirable(Full, c, ctx) <==>
            && !TokenExpired(c, now)
            && !UnrecoveredFailure(metas, events, c.authKey)
            && !UnclearedHold(metas, events, c.authKey)
            && !UnclearedLabel(metas, events, c.authKey)
            && !UnliftedDisable(metas, events, c.authKey)
            && !IsModelBlocked(Get(ctx.metas, c.authKey), model, false, now)
  {
    CoolingIffUnrecoveredFailure(metas, events, c.authKey, now);
    DisabledIffUnlifted(metas, events, c.authKey);
    ShownExpiredIff(metas, events, c.authKey, now);
  }

  /** The test a failover chain makes is the same but for the expired label, which it does not read. */
  lemma AdmittedAfterRunIff(metas: map<AccountId, Meta>, events: seq<Event>, c: Creds, model: ModelId, now: real)
    requires PoolInv(metas) && c.authKey != ""
    ensures var ctx := Context(Run(metas, events), model, now);
            Admits(Full, c, ctx) <==>
            && !TokenExpired(c, now)
            && !UnrecoveredFailure(metas, events, c.authKey)
            && !UnliftedDisable(metas, events, c.authKey)
            && !IsModelBlocked(Get(ctx.metas, c.authKey), model, false, now)
  {
    CoolingIffUnrecoveredFailure(metas, events, c.authKey, now);
    DisabledIffUnlifted(metas, events, c.authKey);
  }

  /** After any run an account disabled for quota is in no tier: the mark never stands on an enabled account. */
  lemma QuotaDisabledIsInNoTier(
      metas: map<AccountId, Meta>, events: seq<Event>, c: Creds, tier: Tier, model: ModelId, now: real)
    requires QuotaInv(metas) && Get(Run(metas, events), c.authKey).disabledForQuota
    ensures !Admits(tier, c, Context(Run(metas, events), model, now))
    ensures Unacquirable(c, Context(Run(metas, events), model, now))
  {
    RunKeepsQuota(metas, events);
  }

  /** A failed account is never acquired before it recovers, and one held for renewal or labelled expired not
      before the hold or the label is gone. */
  lemma {:induction false} HeldAccountsAreNeverAcquired(
      metas: map<AccountId, Meta>, events: seq<Event>, cs: seq<Creds>, c: Creds, model: ModelId, now: real)
    requires PoolInv(metas) && c.authKey != ""
    requires || UnrecoveredFailure(metas, events, c.authKey)
             || UnclearedHold(metas, events, c.authKey)
             || UnclearedLabel(metas, events, c.authKey)
    ensures c !in AcquirePool(cs, Context(Run(metas, events), model, now))
  {
    AcquirePoolIsBest(cs, Context(Run(metas, events), model, now));
    CoolingIffUnrecoveredFailure(metas, events, c.authKey, now);
    ShownExpiredIff(metas, events, c.authKey, now);
  }

  // ------------------------------------------------------------ round robin

  function PickIndex(cursor: nat, n: nat): nat
    requires n > 0
  {
    cursor % n
  }

  function NextCursor(cursor: nat, n: nat): nat
    requires n > 0
  {
    (cursor % n + 1) % n
  }

  /** How often position i is picked by m consecutive picks among n accounts. */
  function TimesPicked(cursor: nat, n: nat, m: nat, i: nat): nat
    requires n > 0
    decreases m
  {
    if m == 0 then 0
    else (if PickIndex(cursor, n) == i then 1 else 0) + TimesPicked(NextCursor(cursor, n), n, m - 1, i)
  }

  /** Picks still to make before position i comes up. */
  function Distance(s: nat, n: nat, i: nat): nat
    requires s < n && i < n
  {
    if i >= s then i - s else i + n - s
  }

  /** q full rounds of n fit into x. */
  predicate Rounds(q: nat, n: nat, x: int) {
    q * n <= x < q * n + n
  }

  lemma AnotherRound(q: nat, n: nat, x: int)
    requires Rounds(q, n, x)
    ensures Rounds(q + 1, n, x + n)
  {
  }

  lemma SmallModulus(s: nat, n: nat)
    requires s < n
    ensures s % n == s
  {
  }

  lemma OwnModulus(n: nat)
    requires n > 0
    ensures n % n == 0
  {
  }

  lemma CursorStep(s: nat, n: nat)
    requires s < n
    ensures PickIndex(s, n) == s
    ensures NextCursor(s, n) == if s + 1 == n then 0 else s + 1
  {
    SmallModulus(s, n);
    if s + 1 == n {
      OwnModulus(n);
    } else {
      SmallModulus(s + 1, n);
    }
  }

  lemma {:induction false} TimesPickedBounds(s: nat, n: nat, m: nat, i: nat)
    requires s < n && i < n
    ensures Rounds(TimesPicked(s, n, m, i), n, m + (n - 1 - Distance(s, n, i)))
    decreases m
  {
    if m > 0 {
      CursorStep(s, n);
      var next := NextCursor(s, n);
      TimesPickedBounds(next, n, m - 1, i);
      if s == i {
        AnotherRound(TimesPicked(next, n, m - 1, i), n, m - 1 + (n - 1 - Distance(next, n, i)));
      }
    }
  }

  lemma {:induction false} NextMultiple(x: int, y: int, n: nat)
    requires x < y
    ensures x * n + n <= y * n
    decreases y - x
  {
    assert y * n == (y - 1) * n + n;
    if x < y - 1 {
      NextMultiple(x, y - 1, n);
    }
  }

  /** Whoever fits between m and m plus one round is the quotient, up to rounding. */
  lemma {:induction false} QuotientBounds(m: nat, n: nat, q: nat)
    requires n > 0
    requires q * n <= m + n - 1 && m < q * n + n
    ensures m / n <= q <= (m + n - 1) / n
  {
    var down, up := m / n, (m + n - 1) / n;
    assert m == down * n + m % n;
    assert m + n - 1 == up * n + (m + n - 1) % n;
    if q < down {
      NextMultiple(q, down, n);
    }
    if q > up {
      NextMultiple(up, q, n);
    }
  }

  /** From any cursor, m consecutive picks give every account its share, rounded up or down. */
  lemma {:induction false} RoundRobinIsFair(cursor: nat, n: nat, m: nat, i: nat)
    requires n > 0 && i < n
    ensures m / n <= TimesPicked(cursor, n, m, i) <= (m + n - 1) / n
  {
    var s := cursor % n;
    CursorStep(s, n);
    assert TimesPicked(cursor, n, m, i) == TimesPicked(s, n, m, i);
    TimesPickedBounds(s, n, m, i);
    QuotientBounds(m, n, TimesPicked(s, n, m, i));
  }

  // ------------------------------------------------------------ load and health

  /** In-flight mark of an account: the count and when it lapses. */
  datatype Mark = Mark(count: nat, expiresAt: real)

  const INFLIGHT_TTL: real := 90.0
  const SOFT_USED_TTL: real := 45.0

  function EffectiveInflight(marks: map<AccountId, Mark>, id: AccountId, now: real): nat {
    if id in marks && marks[id].expiresAt > now then marks[id].count else 0
  }

  function SoftUsedAt(softUsed: map<AccountId, real>, id: AccountId, now: real): real {
    if id in softUsed && now - softUsed[id] <= SOFT_USED_TTL then RMax(0.0, softUsed[id]) else 0.0
  }

  /** Higher is less healthy. */
  function HealthPenalty(v: Meta, inflight: nat, now: real): real {
    var total := RMax(1.0, (v.failCount + v.successCount) as real);
    var cooling := if IsInCooldown(v, now) then RMax(0.0, v.cooldownUntil.GetOr(0.0) - now) / 30.0 else 0.0;
    var load := if inflight > 0 then RMin(12.0, inflight as real * 2.5) else 0.0;
    v.consecutiveFails as real * 3.0 + (v.failCount as real / total) * 5.0 + cooling + load
  }

  /** Three-part sort key, compared left to right. */
  datatype Key = Key(first: real, second: real, third: real)

  predicate Before(a: Key, b: Key) {
    || a.first < b.first
    || (a.first == b.first && a.second < b.second)
    || (a.first == b.first && a.second == b.second && a.third < b.third)
  }

  datatype Spread = Spread(marks: map<AccountId, Mark>, softUsed: map<AccountId, real>)

  /** The key of c comes strictly before that of d. */
  predicate LessUsed(c: Creds, d: Creds, ctx: Context, spread: Spread) {
    Before(LeastUsedKey(c, ctx, spread), LeastUsedKey(d, ctx, spread))
  }

  function LeastUsedKey(c: Creds, ctx: Context, spread: Spread): Key {
    var v := ViewOf(c, ctx);
    var inflight := EffectiveInflight(spread.marks, c.authKey, ctx.now);
    Key(HealthPenalty(v, inflight, ctx.now),
        (v.requestCount + inflight * 2) as real,
        RMax(v.lastUsedAt.GetOr(0.0), SoftUsedAt(spread.softUsed, c.authKey, ctx.now)))
  }
}
