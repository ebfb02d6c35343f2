/** Which tier of accounts a selection settles for, and who is in it. */
module Tiers {
  import opened Wrappers
  import opened Sequences
  import opened PoolMeta
  import opened PoolOps
  import opened PoolRuns
  import opened Switches
  import opened Reasons
  import opened BlockRuns
  import opened Rotation
  import opened FailoverChain

  /** What each tier asks of an account after a run, told by the run: a live token and no unrecovered failure in
      every tier; then, from tier to tier, not the model unblocked, not the account switched on, but never an account
      that is off for its quota. */
  lemma TierAfterRunIff(
      metas: map<AccountId, Meta>, events: seq<Event>, tier: Tier, c: Creds, model: ModelId, now: real)
    requires PoolInv(metas) && c.authKey != "" && SourceFits(BoardOf(Get(metas, c.authKey)))
    ensures Admits(tier, c, Context(Run(metas, events), model, now)) <==>
      && (c.expiresAt.Some? ==> now < c.expiresAt.value - 60.0)
      && !UnrecoveredFailure(metas, events, c.authKey)
      && match tier
         case Full =>
           && !UnliftedDisable(metas, events, c.authKey)
           && !IsModelBlocked(Get(Run(metas, events), c.authKey), model, false, now)
         case IgnoreSoftBlocks =>
           && !UnliftedDisable(metas, events, c.authKey)
           && (model == "" || !UnliftedBlock(metas, events, c.authKey, model))
         case IgnoreAllBlocks => !UnliftedDisable(metas, events, c.authKey)
         case IgnoreDisabled => !BoardRun(BoardOf(Get(metas, c.authKey)), events, c.authKey).forQuota
  {
    CoolingIffUnrecoveredFailure(metas, events, c.authKey, now);
    DisabledIffUnlifted(metas, events, c.authKey);
    RecordFollowsBoard(metas, events, c.authKey);
    if model != "" {
      DurableIffUnlifted(metas, events, c.authKey, model, now);
    }
  }

  /** How far a tier relaxes the test. */
  function Rung(tier: Tier): nat {
    match tier
    case Full => 0
    case IgnoreSoftBlocks => 1
    case IgnoreAllBlocks => 2
    case IgnoreDisabled => 3
  }

  lemma NobodyInTier(tier: Tier, cs: seq<Creds>, ctx: Context)
    ensures InTier(tier, cs, ctx) == [] <==> forall c :: c in cs ==> !Acquirable(tier, c, ctx)
  {
    if InTier(tier, cs, ctx) != [] {
      assert InTier(tier, cs, ctx)[0] in InTier(tier, cs, ctx);
    }
  }

  /** When somebody passes the test of a tier and nobody a stricter one, the pool is all who pass it, in their order. */
  lemma AcquirePoolIsTier(cs: seq<Creds>, ctx: Context, tier: Tier)
    requires exists c :: c in cs && Acquirable(tier, c, ctx)
    requires forall other: Tier, c | Rung(other) < Rung(tier) && c in cs :: !Acquirable(other, c, ctx)
    ensures AcquirePool(cs, ctx) == Filter(c => Acquirable(tier, c, ctx), cs)
  {
    NobodyInTier(tier, cs, ctx);
    NobodyInTier(Full, cs, ctx);
    NobodyInTier(IgnoreSoftBlocks, cs, ctx);
    NobodyInTier(IgnoreAllBlocks, cs, ctx);
  }

  /** The pool never settles for less than it could get: accounts with a soft block are in it only if nobody is fully
      eligible, accounts on which the model is blocked for good only if nobody has at most a soft block, and accounts
      switched off only if nobody is on. */
  lemma AcquirePoolSettlesLast(cs: seq<Creds>, ctx: Context)
    ensures (exists c :: c in cs && Acquirable(Full, c, ctx))
            ==> forall c :: c in AcquirePool(cs, ctx) <==> c in cs && Acquirable(Full, c, ctx)
    ensures (exists c :: c in cs && Acquirable(IgnoreSoftBlocks, c, ctx))
            ==> forall c :: c in AcquirePool(cs, ctx) ==> Acquirable(IgnoreSoftBlocks, c, ctx)
    ensures (exists c :: c in cs && Acquirable(IgnoreAllBlocks, c, ctx))
            ==> forall c :: c in AcquirePool(cs, ctx) ==> ViewOf(c, ctx).enabled
  {
    NobodyInTier(Full, cs, ctx);
    NobodyInTier(IgnoreSoftBlocks, cs, ctx);
    NobodyInTier(IgnoreAllBlocks, cs, ctx);
  }

  /** The same for the candidates of a chain, who are taken from the window. */
  lemma CandidatesAreTier(req: Request, order: seq<Creds>, window: seq<Creds>, ctx: Context, tier: Tier)
    requires exists c :: c in window && Admits(tier, c, ctx)
    requires forall other: Tier, c | Rung(other) < Rung(tier) && c in window :: !Admits(other, c, ctx)
    ensures Candidates(req, order, window, ctx) == Filter(c => Admits(tier, c, ctx), window)
  {
    EmptyIff(tier, window, ctx);
    EmptyIff(Full, window, ctx);
    EmptyIff(IgnoreSoftBlocks, window, ctx);
    EmptyIff(IgnoreAllBlocks, window, ctx);
  }

  lemma CandidatesSettleLast(req: Request, order: seq<Creds>, window: seq<Creds>, ctx: Context)
    ensures (exists c :: c in window && Admits(Full, c, ctx))
            ==> forall c :: c in Candidates(req, order, window, ctx) <==> c in window && Admits(Full, c, ctx)
    ensures (exists c :: c in window && Admits(IgnoreSoftBlocks, c, ctx))
            ==> forall c :: c in Candidates(req, order, window, ctx) ==> Admits(IgnoreSoftBlocks, c, ctx)
    ensures (exists c :: c in window && Admits(IgnoreAllBlocks, c, ctx))
            ==> forall c :: c in Candidates(req, order, window, ctx) ==> ViewOf(c, ctx).enabled
  {
    EmptyIff(Full, window, ctx);
    EmptyIff(IgnoreSoftBlocks, window, ctx);
    EmptyIff(IgnoreAllBlocks, window, ctx);
  }

  /** No count, no entry, no end marker ahead, and no label unless a renewal hold covers it. */
  predicate ShowsNoCooling(m: Meta, now: real) {
    && m.cooldownCount == 0 && m.statusStack == []
    && (m.cooldownUntil.Some? ==> m.cooldownUntil.value <= now)
    && (m.poolStatus == Some(Cooldown) ==> IsRenewBlocking(m.lastRenewStatus))
  }

  lemma NotCoolingShowsNone(m: Meta, now: real)
    ensures !IsInCooldown(View(m, now), now) <==> ShowsNoCooling(m, now)
  {
  }

  /** Whatever is stored, an account with any sign of cooling is in no pool. */
  lemma PoolShowsNoCooling(cs: seq<Creds>, c: Creds, ctx: Context)
    requires c in AcquirePool(cs, ctx)
    ensures ShowsNoCooling(Get(ctx.metas, c.authKey), ctx.now)
  {
    AcquirePoolIsBest(cs, ctx);
    NotCoolingShowsNone(Get(ctx.metas, c.authKey), ctx.now);
  }

  /** Nor is it in any chain. */
  lemma ChainShowsNoCooling(s: Selection, c: Creds)
    requires s.Valid() && c in s.Chain()
    ensures ShowsNoCooling(Get(s.ctx.metas, c.authKey), s.ctx.now)
  {
    ChainIsCorrect(s);
    NotCoolingShowsNone(Get(s.ctx.metas, c.authKey), s.ctx.now);
  }

  // Beyond the window

  /** Those of the order who are not in the window. */
  function Outside(order: seq<Creds>, window: seq<Creds>): seq<Creds> {
    Filter(c => c !in window, order)
  }

  lemma ExtraIsOutside(req: Request, order: seq<Creds>, window: seq<Creds>)
    ensures forall c :: c in Extra(req, order, window) ==> c in order && c !in window
    ensures Extra(req, order, window) == Take(Outside(order, window), NMax(32, WindowSize(req, order)))
  {
    FilterCongruent(c => c !in window, c => c !in window, order);
    var outside := Filter(c => c !in window, order);
    assert forall c :: c in Extra(req, order, window) ==> c in outside;
  }

  /** When nobody of the window passes any test, the candidates are fully eligible accounts from outside it, taken
      from the first 32 of them or, if that is more, from as many as the window has: the first eight who
      pass, or twice as many as attempts are wanted. */
  lemma ExpansionIsExact(req: Request, order: seq<Creds>, window: seq<Creds>, ctx: Context)
    requires forall tier: Tier, c | c in window :: !Admits(tier, c, ctx)
    ensures forall c :: c in Candidates(req, order, window, ctx) ==> c in order && c !in window && Admits(Full, c, ctx)
    ensures var looked := if |order| <= 32 || WindowSize(req, order) <= 32 then 32 else WindowSize(req, order);
            Candidates(req, order, window, ctx)
            == Take(Admitted(Full, Take(Outside(order, window), looked), ctx),
                    if LimitTarget(req) <= 4 then 8 else 2 * LimitTarget(req))
  {
    EmptyIff(Full, window, ctx);
    EmptyIff(IgnoreSoftBlocks, window, ctx);
    EmptyIff(IgnoreAllBlocks, window, ctx);
    EmptyIff(IgnoreDisabled, window, ctx);
    ExtraIsOutside(req, order, window);
    var eligible := Admitted(Full, Extra(req, order, window), ctx);
    assert Candidates(req, order, window, ctx) == Take(eligible, ExtraLimit(req));
    assert forall c :: c in Take(eligible, ExtraLimit(req)) ==> c in eligible;
  }
}
