/** The short way to a failover chain: the preferred account first, with backups from the cache. */
module StickyPath {
  import opened Wrappers
  import opened Sequences
  import opened PoolMeta
  import opened PoolOps
  import opened PoolRuns
  import opened Switches
  import opened Renewals
  import opened Rotation
  import opened FailoverChain

  /** The preferred account may serve at once, without looking at the rest of the pool. */
  predicate StickyReady(c: Creds, ctx: Context) {
    && c.authKey != ""
    && ViewOf(c, ctx).enabled
    && !ViewOf(c, ctx).disabledForQuota
    && !Cooling(c, ctx)
    && !LabelledExpired(c, ctx)
    && FitToLead(c, ctx)
    && c.token != ""
  }

  /** The affinity fast path is taken: the preferred account is known and may serve at once. */
  predicate TakesFastPath(req: Request, sticky: Option<Creds>, ctx: Context) {
    req.prefer != "" && sticky.Some? && StickyReady(sticky.value, ctx)
  }

  /** The fast path asks of the preferred account what single acquisition asks of a fully eligible one, and on top of
      it a name, a token, no quota mark and at most one failure in a row. */
  lemma FastPathAsksMore(req: Request, c: Creds, ctx: Context)
    ensures TakesFastPath(req, Some(c), ctx) <==>
      && req.prefer != "" && Acquirable(Full, c, ctx)
      && c.authKey != "" && c.token != ""
      && !Get(ctx.metas, c.authKey).disabledForQuota && Get(ctx.metas, c.authKey).consecutiveFails <= 1
  {
  }

  /** After any run the fast path is taken exactly when the request prefers an account that has a usable token, no
      unrecovered failure, switching off, renewal hold or expired label, and no block of the model. */
  lemma TakesFastPathAfterRunIff(
      req: Request, c: Creds, metas: map<AccountId, Meta>, events: seq<Event>, model: ModelId, now: real)
    requires PoolInv(metas) && StreakInv(metas) && QuotaInv(metas) && c.authKey != ""
    ensures TakesFastPath(req, Some(c), Context(Run(metas, events), model, now)) <==>
      && req.prefer != "" && c.token != "" && (c.expiresAt.Some? ==> now < c.expiresAt.value - 60.0)
      && !UnrecoveredFailure(metas, events, c.authKey)
      && !UnliftedDisable(metas, events, c.authKey)
      && !UnclearedHold(metas, events, c.authKey)
      && !UnclearedLabel(metas, events, c.authKey)
      && !IsModelBlocked(Get(Run(metas, events), c.authKey), model, false, now)
  {
    var ctx := Context(Run(metas, events), model, now);
    EligibleAfterRunIff(metas, events, c, model, now);
    assert Acquirable(Full, c, ctx) ==> StickyReady(c, ctx) || c.token == "" by {
      RunKeepsQuota(metas, events);
      if Acquirable(Full, c, ctx) {
        EligibleIsFitToLead(metas, events, c, ctx);
      }
    }
  }

  /** A cached account with a usable token that does not belong to the sticky account's user. */
  predicate IsOtherFresh(sticky: Creds, c: Creds, now: real) {
    && c.authKey != ""
    && c.authKey != sticky.authKey
    && !(sticky.userId != "" && (c.userId == sticky.userId || EndsWith(c.authKey, "::" + sticky.userId)))
    && !TokenExpired(c, now)
  }

  /** With no warm pool state (always so in file mode) backups are not checked any further. */
  predicate IsBackup(sticky: Creds, c: Creds, warm: map<AccountId, Meta>, ctx: Context) {
    && IsOtherFresh(sticky, c, ctx.now)
    && (warm == map[] || Admits(Full, c, ctx.(metas := warm)))
  }

  function StickyChain(
      sticky: Creds, cached: seq<Creds>, warm: map<AccountId, Meta>, limit: nat, ctx: Context): seq<Creds>
  {
    [sticky] + (if limit > 1 then Take(Filter(c => IsBackup(sticky, c, warm, ctx), cached), limit - 1) else [])
  }

  lemma StickyChainIsSound(sticky: Creds, cached: seq<Creds>, warm: map<AccountId, Meta>, limit: nat, ctx: Context)
    requires StickyReady(sticky, ctx)
    ensures var chain := StickyChain(sticky, cached, warm, limit, ctx);
            && 1 <= |chain| && (limit > 0 ==> |chain| <= limit)
            && Acquirable(Full, chain[0], ctx)
            && forall i | 1 <= i < |chain| ::
                 && chain[i] in cached && !TokenExpired(chain[i], ctx.now)
                 && chain[i].authKey != "" && chain[i].authKey != sticky.authKey
                 && (sticky.userId != "" ==>
                       && chain[i].userId != sticky.userId
                       && forall issuer: string :: chain[i].authKey != issuer + ("::" + sticky.userId))
                 && (warm != map[] ==> Admits(Full, chain[i], ctx.(metas := warm)))
  {
    var backups := StickyChain(sticky, cached, warm, limit, ctx)[1..];
    forall i | 0 <= i < |backups|
      ensures backups[i] in Filter(c => IsBackup(sticky, c, warm, ctx), cached)
      ensures forall issuer: string | backups[i].authKey == issuer + ("::" + sticky.userId) :: sticky.userId == ""
    {
      forall issuer: string | backups[i].authKey == issuer + ("::" + sticky.userId)
        ensures EndsWith(backups[i].authKey, "::" + sticky.userId)
      {
      }
    }
  }

  /** While the chain has places left, every cached account that may be a backup is in it. */
  lemma ShortStickyChainTakesAll(
      sticky: Creds, cached: seq<Creds>, warm: map<AccountId, Meta>, limit: nat, ctx: Context, c: Creds)
    requires |StickyChain(sticky, cached, warm, limit, ctx)| < limit
    requires c in cached && c.authKey != "" && c.authKey != sticky.authKey
    requires c.expiresAt.Some? ==> ctx.now < c.expiresAt.value - 60.0
    requires sticky.userId != "" ==> c.userId != sticky.userId && !EndsWith(c.authKey, "::" + sticky.userId)
    requires warm != map[] ==> Admits(Full, c, ctx.(metas := warm))
    ensures c in StickyChain(sticky, cached, warm, limit, ctx)
  {
    var backups := Filter(d => IsBackup(sticky, d, warm, ctx), cached);
    assert c in backups;
  }

  /** A backup that counts as the sticky account's user, because one of them has no user id. */
  predicate SharesUser(sticky: Creds, c: Creds) {
    if sticky.userId != "" then c.userId == "" && c.authKey == sticky.userId else c.userId == sticky.authKey
  }

  /** The cached account at j becomes a backup: it may be one, and places are left after those before it. */
  predicate Taken(
      sticky: Creds, cached: seq<Creds>, warm: map<AccountId, Meta>, limit: nat, ctx: Context, j: nat)
    requires j < |cached|
  {
    IsBackup(sticky, cached[j], warm, ctx) && |Filter(c => IsBackup(sticky, c, warm, ctx), cached[..j])| + 1 < limit
  }

  /** The backups are the taken accounts, in their order in the cache. */
  lemma BackupsAreTaken(
      sticky: Creds, cached: seq<Creds>, warm: map<AccountId, Meta>, limit: nat, ctx: Context, i: nat)
      returns (j: nat)
    requires i + 1 < |StickyChain(sticky, cached, warm, limit, ctx)|
    ensures j < |cached| && Taken(sticky, cached, warm, limit, ctx, j)
    ensures StickyChain(sticky, cached, warm, limit, ctx)[i + 1] == cached[j]
    ensures |Filter(c => IsBackup(sticky, c, warm, ctx), cached[..j])| == i
  {
    j := FilterSource(c => IsBackup(sticky, c, warm, ctx), cached, i);
  }

  lemma TakenIsBackup(
      sticky: Creds, cached: seq<Creds>, warm: map<AccountId, Meta>, limit: nat, ctx: Context, j: nat)
    requires j < |cached| && Taken(sticky, cached, warm, limit, ctx, j)
    ensures var i := |Filter(c => IsBackup(sticky, c, warm, ctx), cached[..j])|;
            i + 1 < |StickyChain(sticky, cached, warm, limit, ctx)|
            && StickyChain(sticky, cached, warm, limit, ctx)[i + 1] == cached[j]
  {
    FilterPosition(c => IsBackup(sticky, c, warm, ctx), cached, j);
  }

  lemma SharingIsSameUser(sticky: Creds, c: Creds, now: real)
    requires sticky.authKey != "" && IsOtherFresh(sticky, c, now)
    ensures UserOf(c) == UserOf(sticky) <==> SharesUser(sticky, c)
  {
  }

  /** No account taken from the cache shares the sticky account's user, and any two taken have different users. */
  predicate TakesDistinctUsers(
      sticky: Creds, cached: seq<Creds>, warm: map<AccountId, Meta>, limit: nat, ctx: Context)
  {
    && (forall j | 0 <= j < |cached| && Taken(sticky, cached, warm, limit, ctx, j) :: !SharesUser(sticky, cached[j]))
    && (forall i, j | && 0 <= i < j < |cached|
                      && Taken(sticky, cached, warm, limit, ctx, i)
                      && Taken(sticky, cached, warm, limit, ctx, j) :: UserOf(cached[i]) != UserOf(cached[j]))
  }

  /** Backups are not de-duplicated: no two accounts of a sticky chain have the same user iff those taken from
      the cache differ from each other and from the sticky account. */
  lemma StickyChainUsersDistinctIff(
      sticky: Creds, cached: seq<Creds>, warm: map<AccountId, Meta>, limit: nat, ctx: Context)
    requires StickyReady(sticky, ctx)
    ensures DistinctUsers(StickyChain(sticky, cached, warm, limit, ctx))
        <==> TakesDistinctUsers(sticky, cached, warm, limit, ctx)
  {
    if DistinctUsers(StickyChain(sticky, cached, warm, limit, ctx)) {
      DistinctChainTakesDistinct(sticky, cached, warm, limit, ctx);
    } else {
      var chain := StickyChain(sticky, cached, warm, limit, ctx);
      var x, y :| 0 <= x < y < |chain| && UserOf(chain[x]) == UserOf(chain[y]);
      RepeatedUserIsTaken(sticky, cached, warm, limit, ctx, x, y);
    }
  }

  lemma DistinctChainTakesDistinct(
      sticky: Creds, cached: seq<Creds>, warm: map<AccountId, Meta>, limit: nat, ctx: Context)
    requires StickyReady(sticky, ctx) && DistinctUsers(StickyChain(sticky, cached, warm, limit, ctx))
    ensures TakesDistinctUsers(sticky, cached, warm, limit, ctx)
  {
    var p, chain := c => IsBackup(sticky, c, warm, ctx), StickyChain(sticky, cached, warm, limit, ctx);
    forall j: nat | j < |cached| && Taken(sticky, cached, warm, limit, ctx, j)
      ensures !SharesUser(sticky, cached[j])
    {
      TakenIsBackup(sticky, cached, warm, limit, ctx, j);
      SharingIsSameUser(sticky, cached[j], ctx.now);
      assert UserOf(chain[0]) != UserOf(chain[|Filter(p, cached[..j])| + 1]);
    }
    forall i: nat, j: nat |
      i < j < |cached| && Taken(sticky, cached, warm, limit, ctx, i) && Taken(sticky, cached, warm, limit, ctx, j)
      ensures UserOf(cached[i]) != UserOf(cached[j])
    {
      TakenIsBackup(sticky, cached, warm, limit, ctx, i);
      TakenIsBackup(sticky, cached, warm, limit, ctx, j);
      FilterPositionsAscend(p, cached, i, j);
      assert UserOf(chain[|Filter(p, cached[..i])| + 1]) != UserOf(chain[|Filter(p, cached[..j])| + 1]);
    }
  }

  lemma RepeatedUserIsTaken(
      sticky: Creds, cached: seq<Creds>, warm: map<AccountId, Meta>, limit: nat, ctx: Context, x: nat, y: nat)
    requires StickyReady(sticky, ctx) && x < y < |StickyChain(sticky, cached, warm, limit, ctx)|
    requires var chain := StickyChain(sticky, cached, warm, limit, ctx); UserOf(chain[x]) == UserOf(chain[y])
    ensures !TakesDistinctUsers(sticky, cached, warm, limit, ctx)
  {
    if x == 0 {
      var j := SharedBackupIsTaken(sticky, cached, warm, limit, ctx, y - 1);
    } else {
      var i, j := TwoBackupsAreTaken(sticky, cached, warm, limit, ctx, x - 1, y - 1);
      assert UserOf(cached[i]) == UserOf(cached[j]);
    }
  }

  lemma SharedBackupIsTaken(
      sticky: Creds, cached: seq<Creds>, warm: map<AccountId, Meta>, limit: nat, ctx: Context, y: nat)
      returns (j: nat)
    requires StickyReady(sticky, ctx) && y + 1 < |StickyChain(sticky, cached, warm, limit, ctx)|
    requires UserOf(StickyChain(sticky, cached, warm, limit, ctx)[y + 1]) == UserOf(sticky)
    ensures j < |cached| && Taken(sticky, cached, warm, limit, ctx, j) && SharesUser(sticky, cached[j])
  {
    j := BackupsAreTaken(sticky, cached, warm, limit, ctx, y);
    SharingIsSameUser(sticky, cached[j], ctx.now);
  }

  lemma TwoBackupsAreTaken(
      sticky: Creds, cached: seq<Creds>, warm: map<AccountId, Meta>, limit: nat, ctx: Context, x: nat, y: nat)
      returns (i: nat, j: nat)
    requires x < y && y + 1 < |StickyChain(sticky, cached, warm, limit, ctx)|
    ensures i < j < |cached| && Taken(sticky, cached, warm, limit, ctx, i) && Taken(sticky, cached, warm, limit, ctx, j)
    ensures var chain := StickyChain(sticky, cached, warm, limit, ctx);
            chain[x + 1] == cached[i] && chain[y + 1] == cached[j]
  {
    i := BackupsAreTaken(sticky, cached, warm, limit, ctx, x);
    j := BackupsAreTaken(sticky, cached, warm, limit, ctx, y);
    assert i < j by {
      EarlierBackup(sticky, cached, warm, ctx, i, j);
    }
  }

  lemma EarlierBackup(sticky: Creds, cached: seq<Creds>, warm: map<AccountId, Meta>, ctx: Context, i: nat, j: nat)
    requires i < |cached| && j < |cached| && IsBackup(sticky, cached[j], warm, ctx)
    requires var p := c => IsBackup(sticky, c, warm, ctx); |Filter(p, cached[..i])| < |Filter(p, cached[..j])|
    ensures i < j
  {
    if j < i {
      FilterPositionsAscend(c => IsBackup(sticky, c, warm, ctx), cached, j, i);
    }
  }

  /** A sticky chain with two backups of one user, in a pool that is healthy and known to be. */
  lemma StickyChainMayRepeatUser()
    ensures var sticky, one, two := Creds("a", "u", None, "t"), Creds("b", "v", None, "t"), Creds("c", "v", None, "t");
            var ctx, warm := Context(map[], "", 0.0), map["b" := EmptyMeta, "c" := EmptyMeta];
            && StickyReady(sticky, ctx)
            && StickyChain(sticky, [one, two], warm, 3, ctx) == [sticky, one, two]
            && UserOf(one) == UserOf(two)
  {
    var sticky, one, two := Creds("a", "u", None, "t"), Creds("b", "v", None, "t"), Creds("c", "v", None, "t");
    var ctx, warm := Context(map[], "", 0.0), map["b" := EmptyMeta, "c" := EmptyMeta];
    var p := c => IsBackup(sticky, c, warm, ctx);
    assert !EndsWith("b", "::" + "u") && !EndsWith("c", "::" + "u");
    assert p(one) && p(two);
    FilterAll(p, [one, two]);
  }

  /**
   Without warm pool state the chain holds a cooling account exactly when one is among
   the first other fresh accounts of the cache, as many as there are backup places.
   */
  lemma ColdStickyChainCoolingIff(sticky: Creds, cached: seq<Creds>, limit: nat, ctx: Context)
    requires StickyReady(sticky, ctx)
    ensures (exists c :: c in StickyChain(sticky, cached, map[], limit, ctx) && Cooling(c, ctx))
            <==> limit > 1 && exists c ::
                   c in Take(Filter(c => IsOtherFresh(sticky, c, ctx.now), cached), limit - 1) && Cooling(c, ctx)
  {
    FilterCongruent(c => IsBackup(sticky, c, map[], ctx), c => IsOtherFresh(sticky, c, ctx.now), cached);
    var chain := StickyChain(sticky, cached, map[], limit, ctx);
    if limit > 1 {
      var others := Take(Filter(c => IsOtherFresh(sticky, c, ctx.now), cached), limit - 1);
      assert chain == [sticky] + others;
    }
  }

  /** After any run: without warm pool state the chain holds an account with an unrecovered failure exactly when one
      is among the first other fresh accounts of the cache. */
  lemma {:induction false} ColdStickyChainAfterRunIff(
      sticky: Creds, cached: seq<Creds>, limit: nat, ctx: Context, metas: map<AccountId, Meta>, events: seq<Event>)
    requires StickyReady(sticky, ctx) && PoolInv(metas) && ctx.metas == Run(metas, events)
    ensures (exists c ::
               && c in StickyChain(sticky, cached, map[], limit, ctx)
               && UnrecoveredFailure(metas, events, c.authKey))
        <==> limit > 1 && exists c ::
               && c in Take(Filter(c => IsOtherFresh(sticky, c, ctx.now), cached), limit - 1)
               && UnrecoveredFailure(metas, events, c.authKey)
  {
    ColdStickyChainIs(sticky, cached, limit, ctx);
    assert !UnrecoveredFailure(metas, events, sticky.authKey) by {
      CoolingIffUnrecoveredFailure(metas, events, sticky.authKey, ctx.now);
    }
  }

  lemma ColdStickyChainIs(sticky: Creds, cached: seq<Creds>, limit: nat, ctx: Context)
    ensures StickyChain(sticky, cached, map[], limit, ctx)
         == [sticky] + if limit > 1 then Take(Filter(c => IsOtherFresh(sticky, c, ctx.now), cached), limit - 1) else []
  {
    FilterCongruent(c => IsBackup(sticky, c, map[], ctx), c => IsOtherFresh(sticky, c, ctx.now), cached);
  }

  /** Such a chain after a run from an empty pool: one healthy account followed by one that just failed. */
  lemma ColdStickyChainMayCool()
    ensures var sticky, other := Creds("a", "u", None, "t"), Creds("b", "v", None, "t");
            var ctx := Context(Run(map[], [Event("b", KickSoft, 0.0)]), "", 0.0);
            && StickyReady(sticky, ctx)
            && StickyChain(sticky, [other], map[], 2, ctx) == [sticky, other]
            && Cooling(other, ctx)
  {
    var sticky, other := Creds("a", "u", None, "t"), Creds("b", "v", None, "t");
    var ctx := Context(Run(map[], [Event("b", KickSoft, 0.0)]), "", 0.0);
    SoftKickRun("b");
    assert IsOtherFresh(sticky, other, 0.0) by {
      assert !EndsWith("b", "::" + "u");
    }
    ColdStickyChainOfOne(sticky, other, ctx);
  }

  lemma ColdStickyChainOfOne(sticky: Creds, other: Creds, ctx: Context)
    requires IsOtherFresh(sticky, other, ctx.now)
    ensures StickyChain(sticky, [other], map[], 2, ctx) == [sticky, other]
  {
    ColdStickyChainIs(sticky, [other], 2, ctx);
    FilterOne(c => IsOtherFresh(sticky, c, ctx.now), other);
  }

  /** A kick in an empty pool leaves one record, which is cooling. */
  lemma SoftKickRun(id: AccountId)
    requires id != ""
    ensures var metas := Run(map[], [Event(id, KickSoft, 0.0)]);
            metas.Keys == {id} && IsInCooldown(metas[id], 0.0)
  {
    var e, after := Event(id, KickSoft, 0.0), SoftKicked(EmptyMeta, 0.0);
    assert Run(map[], [e]) == Apply(map[], e) by {
      RunOfOne(map[], e);
    }
    assert Inv(after) && after.cooldownCount > 0 by {
      SoftKickKeepsInv(EmptyMeta, 0.0);
    }
    StepIsUpdate(map[], e, after);
  }

  /** With the stored records at hand, a failed account is in no sticky chain before it recovers. */
  lemma {:induction false} FailedAccountsAreNeverSticky(
      sticky: Creds, cached: seq<Creds>, limit: nat, ctx: Context,
      metas: map<AccountId, Meta>, events: seq<Event>, c: Creds)
    requires StickyReady(sticky, ctx) && PoolInv(metas) && c.authKey != ""
    requires ctx.metas == Run(metas, events) && ctx.metas != map[] && UnrecoveredFailure(metas, events, c.authKey)
    ensures c !in StickyChain(sticky, cached, ctx.metas, limit, ctx)
  {
    CoolingIffUnrecoveredFailure(metas, events, c.authKey, ctx.now);
    assert ctx.(metas := ctx.metas) == ctx;
    StickyChainIsSound(sticky, cached, ctx.metas, limit, ctx);
  }
}
