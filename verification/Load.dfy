/** How load and health order the accounts. */
module Load {
  import opened Wrappers
  import opened Sequences
  import opened Text
  import opened PoolMeta
  import opened PoolOps
  import opened PoolRuns
  import opened Rotation
  import opened FailoverChain
  import opened ChainOrder
  import InFlight

  // What the penalty is made of

  /** The best penalty is that of an account without failures, requests in flight and time left to cool. */
  lemma BestPenaltyIff(v: Meta, inflight: nat, now: real)
    requires now >= 0.0
    ensures HealthPenalty(v, inflight, now) >= 0.0
    ensures HealthPenalty(v, inflight, now) == 0.0 <==>
      && v.consecutiveFails == 0 && v.failCount == 0 && inflight == 0
      && !(IsInCooldown(v, now) && v.cooldownUntil.Some? && v.cooldownUntil.value > now)
  {
    RateIsPositiveIff(v.failCount, v.successCount);
  }

  lemma RateIsPositiveIff(failures: nat, successes: nat)
    ensures var total := RMax(1.0, (failures + successes) as real);
            failures as real / total >= 0.0 && (failures as real / total == 0.0 <==> failures == 0)
  {
    var total := RMax(1.0, (failures + successes) as real);
    var rate := failures as real / total;
    assert rate * total == failures as real;
  }

  /** A failure in a row costs three points. */
  lemma FailureInRowCosts(v: Meta, inflight: nat, now: real)
    ensures HealthPenalty(v.(consecutiveFails := v.consecutiveFails + 1), inflight, now)
         == HealthPenalty(v, inflight, now) + 3.0
  {
  }

  /** The rate of failed requests costs up to five points. */
  lemma FailureRateCosts(v: Meta, inflight: nat, now: real)
    requires v.failCount + v.successCount > 0
    ensures var clean := v.(failCount := 0, successCount := v.failCount + v.successCount);
            (HealthPenalty(v, inflight, now) - HealthPenalty(clean, inflight, now))
            * (v.failCount + v.successCount) as real == 5.0 * v.failCount as real
  {
    var total := (v.failCount + v.successCount) as real;
    var rate := v.failCount as real / total;
    assert rate * total == v.failCount as real;
    var clean := v.(failCount := 0, successCount := v.failCount + v.successCount);
    assert 0.0 / total == 0.0;
    assert HealthPenalty(v, inflight, now) - HealthPenalty(clean, inflight, now) == rate * 5.0;
  }

  /** Every half minute of cooling left costs a point. */
  lemma CoolingCosts(v: Meta, inflight: nat, now: real, until: real)
    requires v.cooldownCount > 0 && now >= 0.0
    ensures HealthPenalty(v.(cooldownUntil := Some(until)), inflight, now)
         == HealthPenalty(v.(cooldownUntil := None), inflight, now)
            + if until > now then (until - now) / 30.0 else 0.0
  {
  }

  /** Each of the first four requests in flight costs two and a half points, the fifth two, and no other any. */
  lemma RequestInFlightCosts(v: Meta, inflight: nat, now: real)
    ensures HealthPenalty(v, inflight + 1, now) - HealthPenalty(v, inflight, now)
         == if inflight < 4 then 2.5 else if inflight == 4 then 2.0 else 0.0
  {
    if inflight < 4 {
      assert inflight == 0 || inflight == 1 || inflight == 2 || inflight == 3;
    }
  }

  // Marks

  /** A note counts one more request, for a minute and a half. */
  lemma NotedLasts(marks: map<AccountId, Mark>, id: AccountId, at: real, t: real)
    ensures EffectiveInflight(InFlight.Noted(marks, id, at), id, t)
         == if t < at + 90.0 then EffectiveInflight(marks, id, at) + 1 else 0
  {
  }

  /** A release counts one less, and what is left for a minute and a half again. */
  lemma ReleasedLasts(marks: map<AccountId, Mark>, id: AccountId, at: real, t: real)
    requires EffectiveInflight(marks, id, at) > 1
    ensures EffectiveInflight(InFlight.Released(marks, id, at), id, t)
         == if t < at + 90.0 then EffectiveInflight(marks, id, at) - 1 else 0
  {
  }

  /** Being noted counts as use for three quarters of a minute. */
  lemma SoftUseLasts(softUsed: map<AccountId, real>, id: AccountId, at: real, t: real)
    requires at >= 0.0
    ensures SoftUsedAt(softUsed[id := at], id, t) == if t <= at + 45.0 then at else 0.0
    ensures id !in softUsed ==> SoftUsedAt(softUsed, id, t) == 0.0
  {
  }

  // The order of a chain

  function Inflight(s: Selection, c: Creds): nat {
    EffectiveInflight(s.spread.marks, c.authKey, s.ctx.now)
  }

  function Penalty(s: Selection, c: Creds): real {
    HealthPenalty(ViewOf(c, s.ctx), Inflight(s, c), s.ctx.now)
  }

  /** The later of the last recorded use and the last note. */
  function LastUse(ctx: Context, spread: Spread, c: Creds): (t: real)
    ensures t >= 0.0
    ensures forall used | ViewOf(c, ctx).lastUsedAt == Some(used) :: used <= t
  {
    RMax(SoftUsedAt(spread.softUsed, c.authKey, ctx.now), RMax(0.0, ViewOf(c, ctx).lastUsedAt.GetOr(0.0)))
  }

  /** An account is used less than another if it is healthier; at equal health, if it has had fewer requests, those
      in flight counted twice more; at equal requests, if its last use is longer ago. */
  lemma LessUsedIff(c: Creds, d: Creds, ctx: Context, spread: Spread)
    ensures var x, y := EffectiveInflight(spread.marks, c.authKey, ctx.now),
                        EffectiveInflight(spread.marks, d.authKey, ctx.now);
            var p, q := HealthPenalty(ViewOf(c, ctx), x, ctx.now), HealthPenalty(ViewOf(d, ctx), y, ctx.now);
            var r, t := ViewOf(c, ctx).requestCount + x + x, ViewOf(d, ctx).requestCount + y + y;
            LessUsed(c, d, ctx, spread) <==>
              p < q || (p == q && (r < t || (r == t && LastUse(ctx, spread, c) < LastUse(ctx, spread, d))))
  {
  }

  /** How far a record is from health, in steps of three points. */
  function Step(s: Selection, c: Creds): int {
    (Penalty(s, c) / 3.0).Floor
  }

  /** Whether a selection tries c before d. In round robin: by steps of the penalty, then by requests in flight, then
      by its place among the candidates. In random mode: by the penalty. Otherwise: the one used less. */
  predicate Better(s: Selection, c: Creds, d: Creds) {
    match s.req.mode
    case RoundRobin =>
      || Step(s, c) < Step(s, d)
      || (Step(s, c) == Step(s, d) && Inflight(s, c) < Inflight(s, d))
      || (Step(s, c) == Step(s, d) && Inflight(s, c) == Inflight(s, d)
          && IndexOf(s.Unique(), c) <= IndexOf(s.Unique(), d))
    case Random => Penalty(s, c) <= Penalty(s, d)
    case LeastUsed => !LessUsed(d, c, s.ctx, s.spread)
  }

  lemma BetterByKey(s: Selection, c: Creds, d: Creds)
    requires !Before(RankKey(s, d), RankKey(s, c))
    ensures Better(s, c, d)
  {
  }

  /** Of two accounts of a chain, both preferred or neither, the first one is the better. */
  lemma ChainOrderIs(s: Selection, i: nat, j: nat)
    requires s.Valid() && i < j < |s.Chain()|
    requires s.req.prefer == "" || Prefers(s.req.prefer, s.Chain()[i]) == Prefers(s.req.prefer, s.Chain()[j])
    ensures Better(s, s.Chain()[i], s.Chain()[j])
  {
    ChainAscends(s, i, j);
    BetterByKey(s, s.Chain()[i], s.Chain()[j]);
  }

  // After a run

  /** Among accounts that are not cooling, with nothing in flight, the healthier one after any run is that with the
      lower rate of failed requests. */
  lemma HealthIsFailureRate(metas: map<AccountId, Meta>, events: seq<Event>, a: AccountId, b: AccountId, now: real)
    requires PoolInv(metas) && StreakInv(metas) && a != "" && b != ""
    requires !UnrecoveredFailure(metas, events, a) && !UnrecoveredFailure(metas, events, b)
    ensures var m, n := Get(Run(metas, events), a), Get(Run(metas, events), b);
            m.failCount + m.successCount > 0 && n.failCount + n.successCount > 0 ==>
              (HealthPenalty(View(m, now), 0, now) <= HealthPenalty(View(n, now), 0, now) <==>
               m.failCount * (n.failCount + n.successCount) <= n.failCount * (m.failCount + m.successCount))
  {
    var m, n := Get(Run(metas, events), a), Get(Run(metas, events), b);
    IdlePenalty(metas, events, a, now);
    IdlePenalty(metas, events, b, now);
    if m.failCount + m.successCount > 0 && n.failCount + n.successCount > 0 {
      RatesCompare(m.failCount, m.failCount + m.successCount, n.failCount, n.failCount + n.successCount);
    }
  }

  lemma CalmPenalty(v: Meta, now: real)
    requires !IsInCooldown(v, now) && v.consecutiveFails == 0 && v.failCount + v.successCount > 0
    ensures HealthPenalty(v, 0, now) == v.failCount as real / (v.failCount + v.successCount) as real * 5.0
  {
  }

  lemma IdlePenalty(metas: map<AccountId, Meta>, events: seq<Event>, id: AccountId, now: real)
    requires PoolInv(metas) && StreakInv(metas) && id != "" && !UnrecoveredFailure(metas, events, id)
    ensures var m := Get(Run(metas, events), id);
            m.failCount + m.successCount > 0 ==>
              HealthPenalty(View(m, now), 0, now) == m.failCount as real / (m.failCount + m.successCount) as real * 5.0
  {
    var m := Get(Run(metas, events), id);
    var v := View(m, now);
    assert !IsInCooldown(v, now) by {
      CoolingIffUnrecoveredFailure(metas, events, id, now);
    }
    assert v.consecutiveFails == 0 by {
      CountIffUnrecoveredFailure(metas, events, id);
      RunKeepsStreaks(metas, events);
    }
    if m.failCount + m.successCount > 0 {
      CalmPenalty(v, now);
    }
  }

  lemma RatesCompare(f: nat, t: nat, g: nat, u: nat)
    requires t > 0 && u > 0
    ensures f as real / t as real * 5.0 <= g as real / u as real * 5.0 <==> f * u <= g * t
  {
    var x, y := f as real / t as real, g as real / u as real;
    var p := t as real * u as real;
    assert x * p == f as real * u as real by {
      assert x * t as real == f as real;
    }
    assert y * p == g as real * t as real by {
      assert y * u as real == g as real;
    }
    assert p > 0.0;
    assert (f * u) as real == f as real * u as real && (g * t) as real == g as real * t as real;
    ScaledCompare(x, y, p);
  }

  lemma ScaledCompare(x: real, y: real, p: real)
    requires p > 0.0
    ensures x <= y <==> x * p <= y * p
  {
  }
}
