/**
 Accounts labelled expired in failover chains. Single acquisition passes them over;
 the chain never reads the label.
 */
module ExpiredAccounts {
  import opened Wrappers
  import opened Sequences
  import opened PoolMeta
  import opened PoolOps
  import opened PoolRuns
  import opened Switches
  import opened Rotation
  import opened FailoverChain
  import opened StickyPath

  /** The two views agree on everything a chain looks at; the label is not part of it. */
  predicate SameForChains(v: Meta, w: Meta, now: real) {
    && v.enabled == w.enabled
    && v.disabledForQuota == w.disabledForQuota
    && v.blockedModels == w.blockedModels
    && IsInCooldown(v, now) == IsInCooldown(w, now)
    && v.cooldownUntil == w.cooldownUntil
    && v.consecutiveFails == w.consecutiveFails
    && v.failCount == w.failCount
    && v.successCount == w.successCount
    && v.requestCount == w.requestCount
    && v.lastUsedAt == w.lastUsedAt
  }

  ghost predicate ContextsAgree(a: Context, b: Context) {
    && a.now == b.now && a.model == b.model
    && forall c :: SameForChains(ViewOf(c, a), ViewOf(c, b), a.now)
  }

  lemma AdmittedCongruent(tier: Tier, cs: seq<Creds>, a: Context, b: Context)
    requires forall c :: Admits(tier, c, a) == Admits(tier, c, b)
    ensures Admitted(tier, cs, a) == Admitted(tier, cs, b)
  {
    FilterCongruent(c => Admits(tier, c, a), c => Admits(tier, c, b), cs);
  }

  lemma AgreeingCandidates(req: Request, order: seq<Creds>, window: seq<Creds>, a: Context, b: Context)
    requires ContextsAgree(a, b)
    ensures Candidates(req, order, window, a) == Candidates(req, order, window, b)
  {
    forall tier: Tier, c: Creds
      ensures Admits(tier, c, a) == Admits(tier, c, b)
    {
      assert SameForChains(ViewOf(c, a), ViewOf(c, b), a.now);
    }
    AdmittedCongruent(Full, window, a, b);
    AdmittedCongruent(IgnoreSoftBlocks, window, a, b);
    AdmittedCongruent(IgnoreAllBlocks, window, a, b);
    AdmittedCongruent(IgnoreDisabled, window, a, b);
    AdmittedCongruent(Full, Extra(req, order, window), a, b);
  }

  lemma AgreeingKey(mode: Mode, c: Creds, position: nat, a: Context, b: Context, spread: Spread)
    requires ContextsAgree(a, b)
    ensures KeyOf(mode, c, position, a, spread) == KeyOf(mode, c, position, b, spread)
  {
    assert SameForChains(ViewOf(c, a), ViewOf(c, b), a.now);
  }

  lemma {:induction false} AgreeingKeys(mode: Mode, cs: seq<Creds>, a: Context, b: Context, spread: Spread)
    requires ContextsAgree(a, b)
    ensures WithKeys(mode, cs, a, spread) == WithKeys(mode, cs, b, spread)
  {
    if cs != [] {
      var n := |cs| - 1;
      AgreeingKeys(mode, cs[..n], a, b, spread);
      AgreeingKey(mode, cs[n], n, a, b, spread);
    }
  }

  lemma AgreeingPins(pref: string, cs: seq<Creds>, a: Context, b: Context)
    requires ContextsAgree(a, b)
    ensures Pinned(pref, cs, a) == Pinned(pref, cs, b)
  {
    var sticky := Split(pref, true, cs);
    if sticky != [] {
      assert SameForChains(ViewOf(sticky[0], a), ViewOf(sticky[0], b), a.now);
    }
  }

  /** The chain is a function of what `SameForChains` compares. */
  lemma AgreeingChains(s: Selection, b: Context)
    requires ContextsAgree(s.ctx, b)
    ensures s.(ctx := b).Chain() == s.Chain()
  {
    var r := s.(ctx := b);
    assert r.Fresh() == s.Fresh() && r.Considered() == s.Considered();
    AgreeingCandidates(s.req, s.Fresh(), s.Considered(), s.ctx, b);
    assert r.Unique() == s.Unique();
    var shuffled := if s.req.mode == Random then s.shuffle(s.Unique()) else s.Unique();
    AgreeingKeys(s.req.mode, shuffled, s.ctx, b, s.spread);
    var ranked := Ranked(s.req.mode, s.Unique(), s.shuffle, s.ctx, s.spread);
    assert ranked == Ranked(s.req.mode, s.Unique(), s.shuffle, b, s.spread);
    AgreeingPins(s.req.prefer, ranked, s.ctx, b);
  }

  /** The marks that are meant to take an account out of rotation until it is renewed. */
  predicate IsExpiryMark(op: Op) {
    op.RecordRenewFailure? || op.MarkSsoAttempt? || op.MarkSsoFailure? || op.MarkExpired?
  }

  lemma ExpiryMarkKeepsScheduling(op: Op, m: Meta, at: real, now: real)
    requires Inv(m) && IsExpiryMark(op)
    ensures SameForChains(View(m, now), View(Step(op, m, at), now), now)
  {
    RenewalKeepsInv(op, m, at);
    CoolingIsClockFree(m, now, now);
    CoolingIsClockFree(Step(op, m, at), now, now);
  }

  /** Marking any account as expired leaves the chain exactly as it was. */
  lemma ExpiryMarkIsInvisibleToChains(s: Selection, id: AccountId, op: Op, at: real)
    requires PoolInv(s.ctx.metas) && IsExpiryMark(op)
    ensures s.(ctx := s.ctx.(metas := Apply(s.ctx.metas, Event(id, op, at)))).Chain() == s.Chain()
  {
    var after := s.ctx.(metas := Apply(s.ctx.metas, Event(id, op, at)));
    forall c: Creds
      ensures SameForChains(ViewOf(c, s.ctx), ViewOf(c, after), s.ctx.now)
    {
      if c.authKey == id {
        ExpiryMarkKeepsScheduling(op, Get(s.ctx.metas, id), at, s.ctx.now);
      }
    }
    AgreeingChains(s, after);
  }

  /** The first tier that admits any account of the window. */
  function FirstTier(window: seq<Creds>, ctx: Context): Option<Tier> {
    if Admitted(Full, window, ctx) != [] then Some(Full)
    else if Admitted(IgnoreSoftBlocks, window, ctx) != [] then Some(IgnoreSoftBlocks)
    else if Admitted(IgnoreAllBlocks, window, ctx) != [] then Some(IgnoreAllBlocks)
    else if Admitted(IgnoreDisabled, window, ctx) != [] then Some(IgnoreDisabled)
    else None
  }

  /** An account labelled expired is a candidate iff the tier in use admits one: the label itself keeps none out. */
  lemma ExpiredCandidateIff(req: Request, order: seq<Creds>, window: seq<Creds>, ctx: Context)
    ensures (exists c :: c in Candidates(req, order, window, ctx) && LabelledExpired(c, ctx)) <==>
      match FirstTier(window, ctx)
      case Some(tier) => exists c :: c in window && Admits(tier, c, ctx) && LabelledExpired(c, ctx)
      case None =>
        exists c :: c in Take(Admitted(Full, Extra(req, order, window), ctx), ExtraLimit(req))
                    && LabelledExpired(c, ctx)
  {
    var tier := FirstTier(window, ctx);
    if tier.Some? {
      assert Candidates(req, order, window, ctx) == Admitted(tier.value, window, ctx);
    }
  }

  /** After any run, when the window holds a fully eligible account, one labelled expired is a candidate too
      exactly when no failure and no switching off of it still stands, and neither its token nor the model keeps
      it out. */
  lemma ExpiredIsCandidateAfterRunIff(s: Selection, metas: map<AccountId, Meta>, events: seq<Event>, c: Creds)
    requires PoolInv(metas) && s.ctx.metas == Run(metas, events) && c.authKey != ""
    requires c in s.Considered() && LabelledExpired(c, s.ctx)
    requires exists d :: d in s.Considered() && Admits(Full, d, s.ctx)
    ensures c in Candidates(s.req, s.Fresh(), s.Considered(), s.ctx) <==>
      && !TokenExpired(c, s.ctx.now)
      && !UnrecoveredFailure(metas, events, c.authKey)
      && !UnliftedDisable(metas, events, c.authKey)
      && !IsModelBlocked(Get(s.ctx.metas, c.authKey), s.ctx.model, false, s.ctx.now)
  {
    var d :| d in s.Considered() && Admits(Full, d, s.ctx);
    assert d in Admitted(Full, s.Considered(), s.ctx);
    AdmittedAfterRunIff(metas, events, c, s.ctx.model, s.ctx.now);
  }

  /** With different users and no cut, the chain holds exactly the candidates. */
  lemma UncutChainHolds(s: Selection, c: Creds)
    requires s.Valid() && |s.Unique()| <= AttemptLimit(s.req, |s.Unique()|)
    requires DistinctUsers(Candidates(s.req, s.Fresh(), s.Considered(), s.ctx))
    ensures c in s.Chain() <==> c in Candidates(s.req, s.Fresh(), s.Considered(), s.ctx)
  {
    ChainIsCorrect(s);
    LineupIsPermutation(s);
    DedupOfDistinct(Candidates(s.req, s.Fresh(), s.Considered(), s.ctx));
  }

  lemma {:induction false} DedupOfDistinct(cs: seq<Creds>)
    requires DistinctUsers(cs)
    ensures Dedup(cs) == cs
  {
    if cs != [] {
      var n := |cs| - 1;
      var front, last := cs[..n], cs[n];
      assert cs == front + [last];
      assert Dedup(front) == front by {
        DedupOfDistinct(front);
      }
      assert UserOf(last) !in Users(front) by {
        NewUser(front, last);
      }
    }
  }

  lemma NewUser(cs: seq<Creds>, c: Creds)
    requires forall i | 0 <= i < |cs| :: UserOf(cs[i]) != UserOf(c)
    ensures UserOf(c) !in Users(cs)
  {
  }

  const EMPTY: map<AccountId, Meta> := map[]

  /** A pool whose only record says that the renewal of account "a" failed. */
  function Refused(): Context {
    Context(Run(EMPTY, [Event("a", RecordRenewFailure, 0.0)]), "", 0.0)
  }

  lemma RefusedIsAdmitted(c: Creds)
    requires c.authKey == "a" && c.expiresAt.None?
    ensures Admits(Full, c, Refused()) && LabelledExpired(c, Refused())
  {
    var e := Event("a", RecordRenewFailure, 0.0);
    assert Run(EMPTY, [e]) == Apply(EMPTY, e) by {
      RunOfOne(EMPTY, e);
    }
    assert Apply(EMPTY, e) == EMPTY["a" := RenewalFailed(EmptyMeta, 0.0)];
    RenewalMarksShow(EmptyMeta, 0.0);
  }

  /** An account whose renewal has just failed, though labelled expired, heads the chain of a pool that has no other. */
  lemma RenewalFailureStillChained(mode: Mode, cursor: nat, shuffle: seq<Creds> -> seq<Creds>, spread: Spread)
    requires Permutes(shuffle)
    ensures var c := Creds("a", "u", None, "t");
            var s := Selection(Request("", None, 1, mode), [c], cursor, shuffle, spread, Refused());
            LabelledExpired(c, Refused()) && s.Chain() == [c]
  {
    var c := Creds("a", "u", None, "t");
    RefusedIsAdmitted(c);
    SingletonChain(Selection(Request("", None, 1, mode), [c], cursor, shuffle, spread, Refused()), c);
  }

  lemma SingletonChain(s: Selection, c: Creds)
    requires s.Valid() && s.live == [c] && Admits(Full, c, s.ctx)
    ensures s.Chain() == [c]
  {
    assert s.Fresh() == [c] by {
      SingletonOrder(s, c);
    }
    assert s.Considered() == [c] by {
      SingletonWindow(s.req, c, s.cursor, s.shuffle([c]));
    }
    assert s.Unique() == [c] by {
      SingletonUnique(s, c);
    }
    assert s.Lineup() == [c] by {
      SingletonLineup(s, c);
    }
    assert |s.Chain()| == 1 by {
      ChainLength(s);
    }
    assert s.Chain()[0] == c by {
      ChainHead(s);
    }
  }

  lemma SingletonWindow(req: Request, c: Creds, cursor: nat, shuffled: seq<Creds>)
    ensures Window(req, [c], cursor, shuffled) == [c]
  {
    assert WindowSize(req, [c]) == 1;
  }

  lemma SingletonUnique(s: Selection, c: Creds)
    requires s.Fresh() == [c] && s.Considered() == [c] && Admits(Full, c, s.ctx)
    ensures s.Unique() == [c]
  {
    assert Candidates(s.req, [c], [c], s.ctx) == [c] by {
      FilterOne(c => Admits(Full, c, s.ctx), c);
    }
    assert [c][..0] == [];
    assert Dedup([c]) == [c];
  }

  lemma SingletonLineup(s: Selection, c: Creds)
    requires s.Valid() && s.Unique() == [c]
    ensures s.Lineup() == [c]
  {
    var lineup := s.Lineup();
    assert |lineup| == 1 && c in lineup by {
      LineupIsPermutation(s);
    }
    assert lineup == [lineup[0]];
  }

  lemma SingletonSplit(pref: string, c: Creds)
    ensures PreferredFirst(pref, [c]) == [c]
  {
    var p, q := c => Prefers(pref, c) == true, c => Prefers(pref, c) == false;
    assert Filter(p, [c]) == if p(c) then [c] else [] by {
      assert [c][1..] == [];
    }
    assert Filter(q, [c]) == if q(c) then [c] else [] by {
      assert [c][1..] == [];
    }
  }

  lemma SingletonOrder(s: Selection, c: Creds)
    requires s.live == [c] && !TokenExpired(c, s.ctx.now)
    ensures s.Fresh() == [c]
  {
    FilterOne(c => !TokenExpired(c, s.ctx.now), c);
    SingletonSplit(s.req.prefer, c);
  }

  // ------------------------------------------------------------ the affinity fast path reads the label

  /** An expiry mark that shows takes the fast path from the preferred account. */
  lemma ExpiryMarkEndsFastPath(req: Request, c: Creds, ctx: Context, op: Op, at: real)
    requires op.RecordRenewFailure? || op.MarkSsoAttempt? || op.MarkSsoFailure?
    ensures !TakesFastPath(req, Some(c), ctx.(metas := Apply(ctx.metas, Event(c.authKey, op, at))))
  {
    if c.authKey != "" {
      RenewalMarksShow(Get(ctx.metas, c.authKey), at);
    }
  }

  /** The fast path refuses the account whose renewal has failed; the full path then puts it at the head. */
  lemma RefusedAccountHeadsFullPath(mode: Mode, cursor: nat, shuffle: seq<Creds> -> seq<Creds>, spread: Spread)
    requires Permutes(shuffle)
    ensures var c, req := Creds("a", "u", None, "t"), Request("a", None, 1, mode);
            && TakesFastPath(req, Some(c), Context(EMPTY, "", 0.0))
            && !TakesFastPath(req, Some(c), Refused())
            && Selection(req, [c], cursor, shuffle, spread, Refused()).Chain() == [c]
  {
    var c, req := Creds("a", "u", None, "t"), Request("a", None, 1, mode);
    FreshAccountTakesFastPath(c, req);
    RefusedIsAdmitted(c);
    SingletonChain(Selection(req, [c], cursor, shuffle, spread, Refused()), c);
  }

  lemma FreshAccountTakesFastPath(c: Creds, req: Request)
    requires c.authKey != "" && c.expiresAt.None? && c.token != "" && req.prefer != ""
    ensures TakesFastPath(req, Some(c), Context(EMPTY, "", 0.0))
  {
  }
}
